/** The Tree message: a root directory with every directory below it embedded. */
module Trees {
  import opened Common
  import opened References
  import opened Wire
  import opened Messages
  import opened ActionResults

  predicate HoldsDirectory(f: Field) { f.number == 1 || f.number == 2 }

  /** The fields that hold directories: the root and the children, in order. */
  function TreeFields(fs: seq<Field>): seq<Field> {
    if fs == [] then []
    else
      var last := fs[|fs| - 1];
      TreeFields(fs[..|fs| - 1]) + if HoldsDirectory(last) then [last] else []
  }

  lemma {:induction false} TreeFieldIncluded(fs: seq<Field>, f: Field)
    requires f in fs && HoldsDirectory(f)
    ensures f in TreeFields(fs)
  {
    if fs[|fs| - 1] != f { TreeFieldIncluded(fs[..|fs| - 1], f); }
  }

  /** The embedded child directories. */
  ghost function Children(fs: seq<Field>): set<Bytes> { set f | f in Select(fs, 2) :: f.data }

  /** No two children with the same hash differ in length. */
  ghost predicate ChildrenConsistent(sha: Bytes -> string, fs: seq<Field>) {
    forall a, b :: a in Children(fs) && b in Children(fs) && sha(a) == sha(b) ==> |a| == |b|
  }

  function AllFiles(dirs: seq<Directory>): seq<DigestReference> {
    if dirs == [] then [] else AllFiles(dirs[..|dirs| - 1]) + dirs[|dirs| - 1].files
  }

  /** A child with this hash and exactly this size is embedded. */
  ghost predicate Embedded(sha: Bytes -> string, fs: seq<Field>, r: DigestReference) {
    exists m :: m in Children(fs) && sha(m) == r.hash && |m| == r.size
  }

  ghost predicate SubdirectoriesEmbedded(sha: Bytes -> string, fs: seq<Field>, dirs: seq<Directory>) {
    forall d, r :: d in dirs && r in d.directories ==> Embedded(sha, fs, r)
  }

  /** The files of a tree: of all its directories, each hash once; nothing if the tree is not complete. */
  ghost function TreeFrom(sha: Bytes -> string, fs: seq<Field>): Option<seq<DigestReference>> {
    match ParseAll(TreeFields(fs), DirectoryOf)
    case None => None
    case Some(dirs) =>
      if |Select(fs, 1)| == 1 && ChildrenConsistent(sha, fs)
         && Consistent(AllFiles(dirs)) && SubdirectoriesEmbedded(sha, fs, dirs)
      then Some(FirstPerHash(AllFiles(dirs))) else None
  }

  ghost function TreeOf(sha: Bytes -> string, data: Bytes): Option<seq<DigestReference>> {
    match Walk(data) case None => None case Some(fs) => TreeFrom(sha, fs)
  }

  /** The empty message is the empty directory, and no tree. */
  lemma EmptyMessages(sha: Bytes -> string)
    ensures DirectoryOf([]) == Some(Directory([], [])) && TreeOf(sha, []) == None
  {
  }

  // ----- the parser -----

  lemma {:induction false} TreeFieldsConcat(a: seq<Field>, b: seq<Field>)
    ensures TreeFields(a + b) == TreeFields(a) + TreeFields(b)
  {
    if b == [] {
      assert a + b == a;
    } else {
      assert (a + b)[..|a + b| - 1] == a + b[..|b| - 1];
      TreeFieldsConcat(a, b[..|b| - 1]);
    }
  }

  lemma TreeFieldsSnoc(fs: seq<Field>, i: nat)
    requires i < |fs|
    ensures TreeFields(fs[..i + 1]) == TreeFields(fs[..i]) + if HoldsDirectory(fs[i]) then [fs[i]] else []
  {
    assert fs[..i + 1][..i] == fs[..i];
  }

  lemma PartSpoils<T>(a: seq<Field>, b: seq<Field>, parse: Bytes -> Option<T>)
    ensures ParseAll(TreeFields(a), parse).None? ==> ParseAll(TreeFields(a + b), parse).None?
  {
    TreeFieldsConcat(a, b);
    ParseAllConcat(TreeFields(a), TreeFields(b), parse);
  }

  lemma PrefixSpoils<T>(fs: seq<Field>, i: nat, parse: Bytes -> Option<T>)
    requires i <= |fs|
    ensures ParseAll(TreeFields(fs[..i]), parse).None? ==> ParseAll(TreeFields(fs), parse).None?
  {
    PartSpoils(fs[..i], fs[i..], parse);
    assert fs == fs[..i] + fs[i..];
  }

  /** The size recorded for each child hash. */
  ghost predicate SizesOfChildren(sha: Bytes -> string, children: set<Bytes>, sizes: map<string, int>) {
    && (forall m :: m in children ==> sha(m) in sizes && sizes[sha(m)] == |m|)
    && (forall h :: h in sizes ==> HashOfChild(sha, children, h))
  }

  ghost predicate HashOfChild(sha: Bytes -> string, children: set<Bytes>, h: string) {
    exists m :: m in children && sha(m) == h
  }

  ghost predicate SizesRecorded(sha: Bytes -> string, fs: seq<Field>, sizes: map<string, int>) {
    SizesOfChildren(sha, Children(fs), sizes)
  }

  lemma ChildrenUpTo(fs: seq<Field>, i: nat)
    requires i < |fs|
    ensures Children(fs[..i + 1]) == Children(fs[..i]) + if fs[i].number == 2 then {fs[i].data} else {}
    ensures Children(fs[..i + 1]) <= Children(fs)
  {
    SelectUpTo(fs, i, 2);
    var some, all := Select(fs[..i + 1], 2), Select(fs, 2);
    assert forall f :: f in some ==> f in all;
    if fs[i].number == 2 { assert fs[i] in some; }
    assert forall f :: f in Select(fs[..i], 2) ==> f in some;
  }

  lemma RecordChild(sha: Bytes -> string, children: set<Bytes>, all: set<Bytes>, data: Bytes, sizes: map<string, int>)
    requires SizesOfChildren(sha, children, sizes) && children + {data} <= all
    ensures var h := sha(data);
      if h in sizes && sizes[h] != |data| then exists m :: m in all && data in all && sha(m) == h && |m| != |data|
      else SizesOfChildren(sha, children + {data}, sizes[h := |data|])
  {
    var h := sha(data);
    if h in sizes {
      assert HashOfChild(sha, children, h);
      var m :| m in children && sha(m) == h;
      assert m in all;
    }
    var next := sizes[h := |data|];
    forall k | k in next ensures HashOfChild(sha, children + {data}, k) {
      if k == h {
        assert sha(data) == k && data in children + {data};
      } else {
        assert HashOfChild(sha, children, k);
        var m :| m in children && sha(m) == k;
        assert m in children + {data};
      }
    }
  }

  lemma EmbeddedIffRecorded(sha: Bytes -> string, fs: seq<Field>, sizes: map<string, int>, r: DigestReference)
    requires SizesRecorded(sha, fs, sizes)
    ensures Embedded(sha, fs, r) <==> r.hash in sizes && sizes[r.hash] == r.size
  {
    if r.hash in sizes {
      assert HashOfChild(sha, Children(fs), r.hash);
    }
  }

  /** Record the size of a child unless its hash has another size. */
  method RecordSize(sha: Bytes -> string, ghost fs: seq<Field>, ghost i: nat, data: Bytes, sizes: map<string, int>)
    returns (r: Option<map<string, int>>)
    requires i < |fs| && fs[i].number == 2 && fs[i].data == data && SizesRecorded(sha, fs[..i], sizes)
    ensures r.None? ==> !ChildrenConsistent(sha, fs)
    ensures r.Some? ==> SizesRecorded(sha, fs[..i + 1], r.value)
  {
    ChildrenUpTo(fs, i);
    RecordChild(sha, Children(fs[..i]), Children(fs), data, sizes);
    if sha(data) in sizes && sizes[sha(data)] != |data| { return None; }
    r := Some(sizes[sha(data) := |data|]);
  }

  lemma NotAChild(sha: Bytes -> string, fs: seq<Field>, i: nat, sizes: map<string, int>)
    requires i < |fs| && SizesRecorded(sha, fs[..i], sizes)
    ensures fs[i].number != 2 ==> SizesRecorded(sha, fs[..i + 1], sizes)
  {
    ChildrenUpTo(fs, i);
    if fs[i].number != 2 { assert Children(fs[..i + 1]) == Children(fs[..i]); }
  }

  /** The first pass: exactly one root, and no child hash with two sizes. */
  method ChildSizes(sha: Bytes -> string, fs: seq<Field>) returns (r: Option<map<string, int>>)
    ensures r.None? ==> |Select(fs, 1)| != 1 || !ChildrenConsistent(sha, fs)
    ensures r.Some? ==> SizesRecorded(sha, fs, r.value) && |Select(fs, 1)| == 1
  {
    var sizes: map<string, int>, rootSeen := map[], false;
    for i := 0 to |fs|
      invariant SizesRecorded(sha, fs[..i], sizes)
      invariant |Select(fs[..i], 1)| == if rootSeen then 1 else 0
    {
      SelectUpTo(fs, i, 1);
      NotAChild(sha, fs, i, sizes);
      if fs[i].number == 1 {
        if rootSeen { return None; }
        rootSeen := true;
      } else if fs[i].number == 2 {
        var next := RecordSize(sha, fs, i, fs[i].data, sizes);
        if next.None? { return None; }
        sizes := next.value;
      }
    }
    assert fs[..|fs|] == fs;
    if !rootSeen { return None; }
    r := Some(sizes);
  }

  /** Going one field further. */
  lemma NextDirectory<T>(fs: seq<Field>, i: nat, parse: Bytes -> Option<T>, parsed: seq<T>)
    requires i < |fs| && ParseAll(TreeFields(fs[..i]), parse) == Some(parsed)
    ensures !HoldsDirectory(fs[i]) ==> ParseAll(TreeFields(fs[..i + 1]), parse) == Some(parsed)
    ensures HoldsDirectory(fs[i]) ==>
      if fs[i].wireType == BYTES && parse(fs[i].data).Some?
      then ParseAll(TreeFields(fs[..i + 1]), parse) == Some(parsed + [parse(fs[i].data).value])
      else ParseAll(TreeFields(fs), parse).None?
  {
    TreeFieldsSnoc(fs, i);
    PrefixSpoils(fs, i + 1, parse);
    if HoldsDirectory(fs[i]) {
      ParseAllSnoc(TreeFields(fs[..i]), fs[i], parse);
    } else {
      assert TreeFields(fs[..i + 1]) == TreeFields(fs[..i]);
    }
  }

  /** The directories of all parts, in order. */
  method ParseDirectories(fs: seq<Field>) returns (r: Option<seq<Directory>>)
    ensures r == ParseAll(TreeFields(fs), DirectoryOf)
  {
    var dirs: seq<Directory> := [];
    for i := 0 to |fs|
      invariant ParseAll(TreeFields(fs[..i]), DirectoryOf) == Some(dirs)
    {
      NextDirectory(fs, i, DirectoryOf, dirs);
      if fs[i].number == 1 || fs[i].number == 2 {
        if fs[i].wireType != BYTES { return None; }
        var directory := ParseDirectory(fs[i].data);
        if directory.None? { return None; }
        dirs := dirs + [directory.value];
      }
    }
    assert fs[..|fs|] == fs;
    r := Some(dirs);
  }

  method ParseTree(sha: Bytes -> string, data: Bytes) returns (files: Option<seq<DigestReference>>)
    ensures files == TreeOf(sha, data)
  {
    var walk := VisitWireFields(data);
    if walk.None? { return None; }
    var sizes := ChildSizes(sha, walk.value);
    if sizes.None? { return None; }
    var dirs := ParseDirectories(walk.value);
    if dirs.None? { return None; }
    files := CheckDirectories(sha, walk.value, dirs.value, sizes.value);
  }

  lemma {:induction false} AllFilesConcat(a: seq<Directory>, b: seq<Directory>)
    ensures AllFiles(a + b) == AllFiles(a) + AllFiles(b)
  {
    if b == [] {
      assert a + b == a;
    } else {
      assert (a + b)[..|a + b| - 1] == a + b[..|b| - 1];
      AllFilesConcat(a, b[..|b| - 1]);
    }
  }

  lemma FilesSnoc(dirs: seq<Directory>, i: nat)
    requires i < |dirs|
    ensures AllFiles(dirs[..i + 1]) == AllFiles(dirs[..i]) + dirs[i].files
  {
    assert dirs[..i + 1][..i] == dirs[..i];
  }

  /** The files up to a position are a prefix of all files. */
  lemma FilesUpTo(dirs: seq<Directory>, i: nat, j: nat)
    requires i < |dirs| && j <= |dirs[i].files|
    ensures Consistent(AllFiles(dirs)) ==> Consistent(AllFiles(dirs[..i]) + dirs[i].files[..j])
  {
    var before, files, after := AllFiles(dirs[..i]), dirs[i].files, AllFiles(dirs[i + 1..]);
    assert dirs == dirs[..i + 1] + dirs[i + 1..];
    AllFilesConcat(dirs[..i + 1], dirs[i + 1..]);
    FilesSnoc(dirs, i);
    FilesSplit(before, files, after, j);
    if Consistent(AllFiles(dirs)) { ConsistentPrefix(before + files[..j], files[j..] + after); }
  }

  lemma FilesSplit(before: seq<DigestReference>, files: seq<DigestReference>, after: seq<DigestReference>, j: nat)
    requires j <= |files|
    ensures (before + files) + after == (before + files[..j]) + (files[j..] + after)
  {
    assert files == files[..j] + files[j..];
  }

  lemma AppendNext(before: seq<DigestReference>, refs: seq<DigestReference>, j: nat)
    requires j < |refs|
    ensures before + refs[..j] + [refs[j]] == before + refs[..j + 1]
  {
  }

  /** Add the files of one directory. */
  method AddFiles(files: DigestCollection, refs: seq<DigestReference>) returns (ok: bool)
    requires files.Valid()
    modifies files
    ensures files.Valid()
    ensures ok ==> files.added == old(files.added) + refs
    ensures !ok ==> exists j :: 0 <= j <= |refs| && !Consistent(old(files.added) + refs[..j])
  {
    ghost var before := files.added;
    for j := 0 to |refs|
      invariant files.Valid() && files.added == before + refs[..j]
    {
      AppendNext(before, refs, j);
      ok := files.Add(refs[j]);
      if !ok { return false; }
    }
    assert refs[..|refs|] == refs;
    ok := true;
  }

  /** Every directory the directory names is embedded with the size it declares. */
  method CheckChildren(sizes: map<string, int>, refs: seq<DigestReference>) returns (ok: bool)
    ensures ok <==> forall r :: r in refs ==> r.hash in sizes && sizes[r.hash] == r.size
  {
    for j := 0 to |refs|
      invariant forall r :: r in refs[..j] ==> r.hash in sizes && sizes[r.hash] == r.size
    {
      if refs[j].hash !in sizes || sizes[refs[j].hash] != refs[j].size { return false; }
    }
    ok := true;
  }

  method CheckDirectories(sha: Bytes -> string, ghost fs: seq<Field>, dirs: seq<Directory>, sizes: map<string, int>)
    returns (r: Option<seq<DigestReference>>)
    requires ParseAll(TreeFields(fs), DirectoryOf) == Some(dirs)
    requires SizesRecorded(sha, fs, sizes) && |Select(fs, 1)| == 1
    ensures r == TreeFrom(sha, fs)
  {
    var files := new DigestCollection();
    assert ChildrenConsistent(sha, fs);
    for i := 0 to |dirs|
      invariant fresh(files) && files.Valid() && files.added == AllFiles(dirs[..i])
      invariant SubdirectoriesEmbedded(sha, fs, dirs[..i])
    {
      FilesSnoc(dirs, i);
      var added := AddFiles(files, dirs[i].files);
      if !added {
        ghost var j :| 0 <= j <= |dirs[i].files| && !Consistent(AllFiles(dirs[..i]) + dirs[i].files[..j]);
        FilesUpTo(dirs, i, j);
        return None;
      }
      var embedded := CheckChildren(sizes, dirs[i].directories);
      ChildrenEmbedded(sha, fs, sizes, dirs, i);
      if !embedded { return None; }
    }
    assert dirs[..|dirs|] == dirs;
    OneSizeEachIsConsistent(files.added);
    r := Some(files.values);
  }

  lemma ChildrenEmbedded(sha: Bytes -> string, fs: seq<Field>, sizes: map<string, int>, dirs: seq<Directory>, i: nat)
    requires i < |dirs| && SizesRecorded(sha, fs, sizes) && SubdirectoriesEmbedded(sha, fs, dirs[..i])
    ensures if forall r :: r in dirs[i].directories ==> r.hash in sizes && sizes[r.hash] == r.size
      then SubdirectoriesEmbedded(sha, fs, dirs[..i + 1]) else !SubdirectoriesEmbedded(sha, fs, dirs)
  {
    forall r ensures Embedded(sha, fs, r) <==> r.hash in sizes && sizes[r.hash] == r.size {
      EmbeddedIffRecorded(sha, fs, sizes, r);
    }
    assert dirs[..i + 1] == dirs[..i] + [dirs[i]];
    assert dirs[i] in dirs;
  }

  // ----- closure -----

  /** The subdirectories of the root. */
  ghost predicate RootNames(fs: seq<Field>, r: DigestReference) {
    exists f :: f in Select(fs, 1) && DirectoryOf(f.data).Some? && r in DirectoryOf(f.data).value.directories
  }

  /** Some embedded child with the hash of `r` names `q` as a subdirectory. */
  ghost predicate ChildNames(sha: Bytes -> string, fs: seq<Field>, r: DigestReference, q: DigestReference) {
    exists m :: m in Children(fs) && sha(m) == r.hash && DirectoryOf(m).Some? && q in DirectoryOf(m).value.directories
  }

  ghost predicate PathLink(sha: Bytes -> string, fs: seq<Field>, path: seq<DigestReference>, i: int)
    requires 0 <= i < |path| - 1
  {
    ChildNames(sha, fs, path[i], path[i + 1])
  }

  /** A chain of child digests from the root. */
  ghost predicate TreePath(sha: Bytes -> string, fs: seq<Field>, path: seq<DigestReference>) {
    |path| > 0 && RootNames(fs, path[0]) && forall i :: 0 <= i < |path| - 1 ==> PathLink(sha, fs, path, i)
  }

  lemma TreeFieldParsed<T>(fs: seq<Field>, f: Field, parse: Bytes -> Option<T>, parsed: seq<T>)
    requires ParseAll(TreeFields(fs), parse) == Some(parsed) && f in fs && HoldsDirectory(f)
    ensures f.wireType == BYTES && parse(f.data).Some? && parse(f.data).value in parsed
  {
    var all := TreeFields(fs);
    TreeFieldIncluded(fs, f);
    var i :| 0 <= i < |all| && all[i] == f;
    ParseAllEach(all, parse, i);
  }

  lemma {:induction false} FilesIncluded(dirs: seq<Directory>, d: Directory, r: DigestReference)
    requires d in dirs && r in d.files
    ensures r in AllFiles(dirs)
  {
    if dirs[|dirs| - 1] != d { FilesIncluded(dirs[..|dirs| - 1], d, r); }
  }

  /** The message is a directory, and all its files are in the list. */
  ghost predicate Listed(data: Bytes, files: seq<DigestReference>) {
    DirectoryOf(data).Some? && forall r :: r in DirectoryOf(data).value.files ==> r in files
  }

  lemma FilesListed(fs: seq<Field>, f: Field, dirs: seq<Directory>, parse: Bytes -> Option<Directory>, files: seq<DigestReference>)
    requires ParseAll(TreeFields(fs), parse) == Some(dirs)
    requires f in Select(fs, 1) || f in Select(fs, 2)
    requires forall r :: r in AllFiles(dirs) ==> r in files
    ensures parse(f.data).Some? && forall r :: r in parse(f.data).value.files ==> r in files
  {
    SelectMembers(fs, 1);
    SelectMembers(fs, 2);
    TreeFieldParsed(fs, f, parse, dirs);
    forall r | r in parse(f.data).value.files ensures r in files {
      FilesIncluded(dirs, parse(f.data).value, r);
    }
  }

  /**
   * Tree closure. When a tree parses, every directory reachable from the root by child digests is embedded with the
   * declared size, the files of the root and of every such directory are in the result, and no hash is repeated.
   */
  lemma {:induction false} TreeClosure(sha: Bytes -> string, data: Bytes, path: seq<DigestReference>)
    requires TreeOf(sha, data).Some? && TreePath(sha, Walk(data).value, path)
    ensures var fs, files := Walk(data).value, TreeOf(sha, data).value;
      && DistinctHashes(files)
      && Embedded(sha, fs, path[|path| - 1])
      && (forall m :: m in Children(fs) && sha(m) == path[|path| - 1].hash ==>
           |m| == path[|path| - 1].size && Listed(m, files))
      && (forall f :: f in Select(fs, 1) ==> Listed(f.data, files))
  {
    var fs, files := Walk(data).value, TreeOf(sha, data).value;
    var dirs := ParseAll(TreeFields(fs), DirectoryOf).value;
    FirstPerHashProperties(AllFiles(dirs));
    var last := path[|path| - 1];
    assert Embedded(sha, fs, last) by { PathEndEmbedded(sha, fs, dirs, path); }
    var e :| e in Children(fs) && sha(e) == last.hash && |e| == last.size;
    forall m | m in Children(fs) && sha(m) == last.hash ensures |m| == last.size && Listed(m, files) {
      var f :| f in Select(fs, 2) && f.data == m;
      FilesListed(fs, f, dirs, DirectoryOf, files);
    }
    forall f | f in Select(fs, 1) ensures Listed(f.data, files) {
      FilesListed(fs, f, dirs, DirectoryOf, files);
    }
  }

  lemma PathEndEmbedded(sha: Bytes -> string, fs: seq<Field>, dirs: seq<Directory>, path: seq<DigestReference>)
    requires ParseAll(TreeFields(fs), DirectoryOf) == Some(dirs) && SubdirectoriesEmbedded(sha, fs, dirs)
    requires TreePath(sha, fs, path)
    ensures Embedded(sha, fs, path[|path| - 1])
  {
    if |path| == 1 {
      var f :| f in Select(fs, 1) && DirectoryOf(f.data).Some? && path[0] in DirectoryOf(f.data).value.directories;
      SelectMembers(fs, 1);
      TreeFieldParsed(fs, f, DirectoryOf, dirs);
    } else {
      var k := |path| - 2;
      assert PathLink(sha, fs, path, k);
      var m :| m in Children(fs) && sha(m) == path[k].hash && DirectoryOf(m).Some?
        && path[k + 1] in DirectoryOf(m).value.directories;
      var f :| f in Select(fs, 2) && f.data == m;
      SelectMembers(fs, 2);
      TreeFieldParsed(fs, f, DirectoryOf, dirs);
    }
  }
}
