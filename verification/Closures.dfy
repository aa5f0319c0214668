/** What an action result refers to, directly and through trees and directories. */
module Closures {
  import opened Common
  import opened Messages
  import opened ActionResults

  const MAX_OBJECTS := 100_000

  /**
   * How tree and directory messages are read, the content behind each hash, and the references of the action
   * result under validation.
   */
  datatype Graph = Graph(
    treeOf: Bytes -> Option<seq<DigestReference>>,
    directoryOf: Bytes -> Option<Directory>,
    content: map<string, Bytes>,
    refs: ActionReferences)

  ghost function DirectoryAt(g: Graph, r: DigestReference): Directory {
    if r.hash in g.content && g.directoryOf(g.content[r.hash]).Some? then g.directoryOf(g.content[r.hash]).value
    else Directory([], [])
  }

  ghost function TreeFilesAt(g: Graph, r: DigestReference): seq<DigestReference> {
    if r.hash in g.content && g.treeOf(g.content[r.hash]).Some? then g.treeOf(g.content[r.hash]).value else []
  }

  ghost predicate Subdirectory(g: Graph, path: seq<DigestReference>, i: int)
    requires 0 <= i < |path| - 1
  {
    path[i + 1] in DirectoryAt(g, path[i]).directories
  }

  ghost predicate DirectoryPath(g: Graph, path: seq<DigestReference>, r: DigestReference) {
    && |path| > 0 && path[0] in g.refs.directories && path[|path| - 1] == r
    && forall i :: 0 <= i < |path| - 1 ==> Subdirectory(g, path, i)
  }

  /** The directories reachable from the root directories; the graph may be cyclic. */
  ghost predicate ReachesDirectory(g: Graph, r: DigestReference) {
    exists path :: DirectoryPath(g, path, r)
  }

  ghost predicate ReachesTree(g: Graph, r: DigestReference) { r in g.refs.trees }

  ghost predicate FileOfTree(g: Graph, r: DigestReference) {
    exists t :: ReachesTree(g, t) && r in TreeFilesAt(g, t)
  }

  ghost predicate FileOfDirectory(g: Graph, r: DigestReference) {
    exists d :: ReachesDirectory(g, d) && r in DirectoryAt(g, d).files
  }

  /** The blobs reachable directly, through trees and through directories, without the implicit empty blob. */
  ghost predicate ReachesBlob(g: Graph, r: DigestReference) {
    !IsImplicitEmpty(r) && (r in g.refs.blobs || FileOfTree(g, r) || FileOfDirectory(g, r))
  }

  ghost predicate Reaches(g: Graph, r: DigestReference) {
    ReachesBlob(g, r) || ReachesTree(g, r) || ReachesDirectory(g, r)
  }

  /** Every reachable object is present. */
  ghost predicate AllPresent(g: Graph, present: set<string>) {
    forall r :: Reaches(g, r) ==> r.hash in present
  }

  ghost predicate TreesSound(g: Graph) {
    forall t :: ReachesTree(g, t) && t.hash in g.content ==>
      |g.content[t.hash]| == t.size && g.treeOf(g.content[t.hash]).Some?
  }

  ghost predicate DirectoriesSound(g: Graph) {
    forall d :: ReachesDirectory(g, d) && d.hash in g.content ==>
      |g.content[d.hash]| == d.size && g.directoryOf(g.content[d.hash]).Some?
  }

  ghost predicate BlobSizesAgree(g: Graph) {
    forall b, c :: ReachesBlob(g, b) && ReachesBlob(g, c) && b.hash == c.hash ==> b.size == c.size
  }

  ghost predicate BlobHash(g: Graph, h: string) { exists r :: ReachesBlob(g, r) && r.hash == h }
  ghost predicate TreeHash(g: Graph, h: string) { exists r :: ReachesTree(g, r) && r.hash == h }
  ghost predicate DirectoryHash(g: Graph, h: string) { exists r :: ReachesDirectory(g, r) && r.hash == h }

  ghost predicate HashesOfGraph(g: Graph, blobs: set<string>, trees: set<string>, directories: set<string>) {
    && (forall h :: h in blobs ==> BlobHash(g, h))
    && (forall h :: h in trees ==> TreeHash(g, h))
    && (forall h :: h in directories ==> DirectoryHash(g, h))
  }

  /** Counting distinct blobs, trees and directories separately, there are more than the limit. */
  ghost predicate TooMany(g: Graph) {
    exists blobs, trees, directories ::
      HashesOfGraph(g, blobs, trees, directories) && |blobs| + |trees| + |directories| > MAX_OBJECTS
  }

  /** Nothing about the reachable objects is malformed or inconsistent, and there are not too many of them. */
  ghost predicate Sound(g: Graph) {
    TreesSound(g) && DirectoriesSound(g) && BlobSizesAgree(g) && !TooMany(g)
  }

  /** A graph that reaches one object is small. */
  lemma OneHash(g: Graph, r: DigestReference, blobs: set<string>, trees: set<string>, directories: set<string>)
    requires forall q :: Reaches(g, q) ==> q == r
    requires HashesOfGraph(g, blobs, trees, directories)
    ensures |blobs| + |trees| + |directories| <= 3
  {
    forall h | h in blobs ensures h == r.hash {
      assert BlobHash(g, h);
      var q :| ReachesBlob(g, q) && q.hash == h;
      assert Reaches(g, q);
    }
    forall h | h in trees ensures h == r.hash {
      assert TreeHash(g, h);
      var q :| ReachesTree(g, q) && q.hash == h;
      assert Reaches(g, q);
    }
    forall h | h in directories ensures h == r.hash {
      assert DirectoryHash(g, h);
      var q :| ReachesDirectory(g, q) && q.hash == h;
      assert Reaches(g, q);
    }
    SubsetCardinality(blobs, {r.hash});
    SubsetCardinality(trees, {r.hash});
    SubsetCardinality(directories, {r.hash});
  }

  /** Without trees and directories only the blobs are reached. */
  lemma OnlyBlobs(g: Graph, q: DigestReference)
    requires g.refs.trees == [] && g.refs.directories == []
    ensures !ReachesTree(g, q) && !ReachesDirectory(g, q) && (ReachesBlob(g, q) ==> q in g.refs.blobs)
  {
    forall d ensures !ReachesDirectory(g, d) {}
  }

  // ----- walking directories -----

  lemma RootReached(g: Graph, r: DigestReference)
    requires r in g.refs.directories
    ensures ReachesDirectory(g, r)
  {
    assert DirectoryPath(g, [r], r);
  }

  lemma SubdirectoryReached(g: Graph, r: DigestReference, q: DigestReference)
    requires ReachesDirectory(g, r) && q in DirectoryAt(g, r).directories
    ensures ReachesDirectory(g, q)
  {
    var path :| DirectoryPath(g, path, r);
    var longer := path + [q];
    forall i | 0 <= i < |longer| - 1 ensures Subdirectory(g, longer, i) {
      if i < |path| - 1 { assert Subdirectory(g, path, i); }
    }
    assert DirectoryPath(g, longer, q);
  }

  /** The reference is recorded with exactly its size. */
  ghost predicate Recorded(m: map<string, int>, r: DigestReference) {
    r.hash in m && m[r.hash] == r.size
  }

  /** A set of recorded directories that holds the roots and all subdirectories holds everything reachable. */
  lemma {:induction false} ClosedCoversPath(g: Graph, m: map<string, int>, path: seq<DigestReference>, r: DigestReference)
    requires forall q :: q in g.refs.directories ==> Recorded(m, q)
    requires forall d, q :: Recorded(m, d) && q in DirectoryAt(g, d).directories ==> Recorded(m, q)
    requires DirectoryPath(g, path, r)
    ensures Recorded(m, r)
    decreases |path|
  {
    if |path| > 1 {
      var init := path[..|path| - 1];
      forall i | 0 <= i < |init| - 1 ensures Subdirectory(g, init, i) {
        assert Subdirectory(g, path, i);
      }
      ClosedCoversPath(g, m, init, init[|init| - 1]);
      assert Subdirectory(g, path, |path| - 2);
    }
  }

  lemma ClosedCoversReachable(g: Graph, m: map<string, int>)
    requires forall q :: q in g.refs.directories ==> Recorded(m, q)
    requires forall d, q :: Recorded(m, d) && q in DirectoryAt(g, d).directories ==> Recorded(m, q)
    ensures forall r :: ReachesDirectory(g, r) ==> Recorded(m, r)
  {
    forall r | ReachesDirectory(g, r) ensures Recorded(m, r) {
      var path :| DirectoryPath(g, path, r);
      ClosedCoversPath(g, m, path, r);
    }
  }

  // ----- complete closures, without paths -----

  ghost predicate BlobsPresent(refs: seq<DigestReference>, present: set<string>) {
    forall r :: r in refs && !IsImplicitEmpty(r) ==> r.hash in present
  }

  /** The set holds the root directories and, with a directory, its subdirectories. */
  ghost predicate HoldsDirectories(g: Graph, directories: DigestReference -> bool) {
    && (forall r :: r in g.refs.directories ==> directories(r))
    && (forall d, q :: directories(d) && q in DirectoryAt(g, d).directories ==> directories(q))
  }

  /** Present are the blobs named, every tree with its files, and every directory of the set with its files. */
  ghost predicate PresentWith(g: Graph, present: set<string>, directories: DigestReference -> bool) {
    && BlobsPresent(g.refs.blobs, present) && HoldsDirectories(g, directories)
    && (forall t :: t in g.refs.trees ==> t.hash in present && BlobsPresent(TreeFilesAt(g, t), present))
    && (forall d :: directories(d) ==> d.hash in present && BlobsPresent(DirectoryAt(g, d).files, present))
  }

  lemma {:induction false} PathStaysInside(g: Graph, directories: DigestReference -> bool, path: seq<DigestReference>,
                                           r: DigestReference)
    requires HoldsDirectories(g, directories) && DirectoryPath(g, path, r)
    ensures directories(r)
    decreases |path|
  {
    if |path| > 1 {
      var init := path[..|path| - 1];
      forall i | 0 <= i < |init| - 1 ensures Subdirectory(g, init, i) { assert Subdirectory(g, path, i); }
      PathStaysInside(g, directories, init, init[|init| - 1]);
      assert Subdirectory(g, path, |path| - 2);
    }
  }

  lemma InsideIsPresent(g: Graph, present: set<string>, directories: DigestReference -> bool)
    requires PresentWith(g, present, directories)
    ensures AllPresent(g, present)
  {
    forall d | ReachesDirectory(g, d) ensures directories(d) {
      var path :| DirectoryPath(g, path, d);
      PathStaysInside(g, directories, path, d);
    }
    forall r | ReachesBlob(g, r) ensures r.hash in present {
      if FileOfTree(g, r) { var t :| ReachesTree(g, t) && r in TreeFilesAt(g, t); }
      if FileOfDirectory(g, r) { var d :| ReachesDirectory(g, d) && r in DirectoryAt(g, d).files; }
    }
  }

  lemma ReachedIsClosed(g: Graph)
    ensures HoldsDirectories(g, r => ReachesDirectory(g, r))
  {
    forall r | r in g.refs.directories ensures ReachesDirectory(g, r) { RootReached(g, r); }
    forall d, q | ReachesDirectory(g, d) && q in DirectoryAt(g, d).directories ensures ReachesDirectory(g, q) {
      SubdirectoryReached(g, d, q);
    }
  }

  lemma FilesOfReached(g: Graph, present: set<string>)
    requires AllPresent(g, present)
    ensures BlobsPresent(g.refs.blobs, present)
    ensures forall t :: t in g.refs.trees ==> t.hash in present && BlobsPresent(TreeFilesAt(g, t), present)
    ensures forall d :: ReachesDirectory(g, d) ==> d.hash in present && BlobsPresent(DirectoryAt(g, d).files, present)
  {
    forall r | r in g.refs.blobs && !IsImplicitEmpty(r) ensures r.hash in present { assert Reaches(g, r); }
    forall t | t in g.refs.trees ensures t.hash in present && BlobsPresent(TreeFilesAt(g, t), present) {
      assert Reaches(g, t);
      forall r | r in TreeFilesAt(g, t) && !IsImplicitEmpty(r) ensures r.hash in present {
        assert FileOfTree(g, r) && Reaches(g, r);
      }
    }
    forall d | ReachesDirectory(g, d) ensures d.hash in present && BlobsPresent(DirectoryAt(g, d).files, present) {
      assert Reaches(g, d);
      forall r | r in DirectoryAt(g, d).files && !IsImplicitEmpty(r) ensures r.hash in present {
        assert FileOfDirectory(g, r) && Reaches(g, r);
      }
    }
  }

  /**
   * Everything reachable is present if and only if there is a set of directories that holds the roots and, with each
   * directory, its subdirectories, such that these directories, the trees, the files of all of them and the named blobs
   * are present.
   */
  lemma PresentIffClosed(g: Graph, present: set<string>)
    ensures AllPresent(g, present) <==> exists directories :: PresentWith(g, present, directories)
  {
    if AllPresent(g, present) {
      ReachedIsClosed(g);
      FilesOfReached(g, present);
      assert PresentWith(g, present, r => ReachesDirectory(g, r));
    }
    forall directories | PresentWith(g, present, directories) ensures AllPresent(g, present) {
      InsideIsPresent(g, present, directories);
    }
  }
}
