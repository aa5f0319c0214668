/** The encoders of nodes, directories and trees, and the proof that parsing inverts them. */
module TreeEncoding {
  import opened Common
  import opened References
  import opened Wire
  import opened Messages
  import opened Trees
  import opened ActionEncoding

  // ----- messages as lists of parts -----

  function FieldsOf<P>(ps: seq<P>, field: P -> Field): seq<Field> {
    if ps == [] then [] else FieldsOf(ps[..|ps| - 1], field) + [field(ps[|ps| - 1])]
  }

  /** What the parts contribute, in order, unless one of them spoils the message. */
  function Gather<P, T>(ps: seq<P>, read: P -> Option<seq<T>>): Option<seq<T>> {
    if ps == [] then Some([])
    else
      match Gather(ps[..|ps| - 1], read)
      case None => None
      case Some(xs) => match read(ps[|ps| - 1]) case None => None case Some(ys) => Some(xs + ys)
  }

  function One<T>(o: Option<T>): Option<seq<T>> { match o case None => None case Some(x) => Some([x]) }

  /** The part contributes what its field is parsed to if the field is wanted, and nothing otherwise. */
  ghost predicate Reads<T>(f: Field, wanted: bool, parse: Bytes -> Option<T>, read: Option<seq<T>>) {
    if wanted then f.wireType == BYTES && read == One(parse(f.data)) else read == Some([])
  }

  lemma {:induction false} FieldsEncodable<P>(ps: seq<P>, field: P -> Field)
    requires forall p :: p in ps ==> Encodable(field(p))
    ensures forall f :: f in FieldsOf(ps, field) ==> Encodable(f)
  {
    if ps != [] {
      assert ps[|ps| - 1] in ps;
      FieldsEncodable(ps[..|ps| - 1], field);
    }
  }

  lemma {:induction false} SelectedParse<P, T>(ps: seq<P>, field: P -> Field, number: int, parse: Bytes -> Option<T>,
                                               read: P -> Option<seq<T>>)
    requires forall p :: p in ps ==> Reads(field(p), field(p).number == number, parse, read(p))
    ensures ParseAll(Select(FieldsOf(ps, field), number), parse) == Gather(ps, read)
  {
    if ps != [] {
      var init, last := ps[..|ps| - 1], ps[|ps| - 1];
      assert last in ps;
      SelectedParse(init, field, number, parse, read);
      SelectSnoc(FieldsOf(init, field), field(last), number);
      ParseAllSnoc(Select(FieldsOf(init, field), number), field(last), parse);
      if Gather(init, read).Some? { assert Gather(init, read).value + [] == Gather(init, read).value; }
    }
  }

  lemma {:induction false} DirectoryFieldsParse<P, T>(ps: seq<P>, field: P -> Field, parse: Bytes -> Option<T>,
                                                      read: P -> Option<seq<T>>)
    requires forall p :: p in ps ==> Reads(field(p), HoldsDirectory(field(p)), parse, read(p))
    ensures ParseAll(TreeFields(FieldsOf(ps, field)), parse) == Gather(ps, read)
  {
    if ps != [] {
      var init, last := ps[..|ps| - 1], ps[|ps| - 1];
      assert last in ps;
      DirectoryFieldsParse(init, field, parse, read);
      var fs := FieldsOf(init, field);
      assert (fs + [field(last)])[..|fs|] == fs && TreeFields(fs) + [] == TreeFields(fs);
      ParseAllSnoc(TreeFields(fs), field(last), parse);
      if Gather(init, read).Some? { assert Gather(init, read).value + [] == Gather(init, read).value; }
    }
  }

  // ----- nodes -----

  /** A file node or a directory node: digests in field 2, and other fields, such as the name, around them. */
  datatype NodeMessage = NodeMessage(before: seq<Field>, digests: seq<DigestReference>, after: seq<Field>)

  function NodeFields(n: NodeMessage): seq<Field> { n.before + Section(n.digests, 2, EncodeDigest) + n.after }

  function EncodeNode(n: NodeMessage): Bytes { EncodeFields(NodeFields(n)) }

  ghost predicate OtherFields(fs: seq<Field>) { forall f :: f in fs ==> Encodable(f) && f.number != 2 }

  ghost predicate NodeFits(n: NodeMessage) {
    OtherFields(n.before) && OtherFields(n.after) && forall d :: d in n.digests ==> EncodableDigest(d)
  }

  lemma DigestSectionParses(digests: seq<DigestReference>)
    requires forall d :: d in digests ==> EncodableDigest(d)
    ensures ParseAll(Section(digests, 2, EncodeDigest), DigestOf) == Some(digests)
    ensures forall f :: f in Section(digests, 2, EncodeDigest) ==> f.number == 2 && Encodable(f)
  {
    forall i | 0 <= i < |digests| ensures DigestOf(EncodeDigest(digests[i])) == Some(digests[i]) {
      DigestRoundTrip(digests[i]);
    }
    SectionParses(digests, digests, 2, EncodeDigest, DigestOf);
    forall d | d in digests ensures |EncodeDigest(d)| <= MAX_INT64 { DigestShort(d); }
    SectionEncodable(digests, 2, EncodeDigest);
  }

  lemma SelectNodeDigests(n: NodeMessage)
    requires NodeFits(n)
    ensures Select(NodeFields(n), 2) == Section(n.digests, 2, EncodeDigest)
  {
    var section := Section(n.digests, 2, EncodeDigest);
    DigestSectionParses(n.digests);
    SelectConcat(n.before + section, n.after, 2);
    SelectConcat(n.before, section, 2);
    SelectNone(n.before, 2);
    SelectNone(n.after, 2);
    SelectSection(section, 2, 2);
  }

  /** A node is read as the digest in its field 2, whatever else it holds, exactly if there is one such digest. */
  lemma NodeRoundTrip(n: NodeMessage)
    requires NodeFits(n)
    ensures NodeDigestOf(EncodeNode(n)) == if |n.digests| == 1 then Some(n.digests[0]) else None
  {
    DigestSectionParses(n.digests);
    WalkInvertsEncode(NodeFields(n));
    SelectNodeDigests(n);
  }

  // ----- directories -----

  /** One field of a directory message; fields of other numbers are symbolic links and the like. */
  datatype DirectoryPart = FileNode(node: NodeMessage) | DirectoryNode(node: NodeMessage) | OtherField(field: Field)

  function PartField(p: DirectoryPart): Field {
    match p
    case FileNode(n) => BytesField(1, EncodeNode(n))
    case DirectoryNode(n) => BytesField(2, EncodeNode(n))
    case OtherField(f) => f
  }

  function EncodeDirectoryMessage(ps: seq<DirectoryPart>): Bytes { EncodeFields(FieldsOf(ps, PartField)) }

  ghost predicate PartFits(p: DirectoryPart) {
    match p
    case OtherField(f) => Encodable(f) && f.number != 1 && f.number != 2
    case _ => NodeFits(p.node) && |EncodeNode(p.node)| <= MAX_INT64
  }

  ghost predicate PartsFit(ps: seq<DirectoryPart>) { forall p :: p in ps ==> PartFits(p) }

  /** Every node names one digest. */
  predicate NodesOk(ps: seq<DirectoryPart>) { forall p :: p in ps && !p.OtherField? ==> |p.node.digests| == 1 }

  /** The digests of the file nodes in order. */
  function FilesIn(ps: seq<DirectoryPart>): seq<DigestReference> {
    if ps == [] then []
    else
      var last := ps[|ps| - 1];
      FilesIn(ps[..|ps| - 1]) + if last.FileNode? then last.node.digests else []
  }

  /** The digests of the directory nodes in order. */
  function DirectoriesIn(ps: seq<DirectoryPart>): seq<DigestReference> {
    if ps == [] then []
    else
      var last := ps[|ps| - 1];
      DirectoriesIn(ps[..|ps| - 1]) + if last.DirectoryNode? then last.node.digests else []
  }

  /** The nodes at this field number name one digest each. */
  predicate NodesOkAt(ps: seq<DirectoryPart>, number: int) {
    forall p :: p in ps && !p.OtherField? && PartField(p).number == number ==> |p.node.digests| == 1
  }

  lemma NodesOkSnoc(ps: seq<DirectoryPart>, number: int)
    requires ps != []
    ensures var last := ps[|ps| - 1];
      NodesOkAt(ps, number) <==> NodesOkAt(ps[..|ps| - 1], number) && NodesOkAt([last], number)
  {
    assert ps == ps[..|ps| - 1] + [ps[|ps| - 1]];
  }

  function DigestsIn(ps: seq<DirectoryPart>, number: int): seq<DigestReference> {
    if number == 1 then FilesIn(ps) else DirectoriesIn(ps)
  }

  /** What a part adds to the digests at a field number. */
  function ReadNode(p: DirectoryPart, number: int): Option<seq<DigestReference>> {
    if PartField(p).number != number || p.OtherField? then Some([])
    else if |p.node.digests| == 1 then Some(p.node.digests) else None
  }

  function NodeReader(number: int): DirectoryPart -> Option<seq<DigestReference>> { p => ReadNode(p, number) }

  lemma NodePartReads(p: DirectoryPart, number: int)
    requires PartFits(p) && (number == 1 || number == 2)
    ensures Reads(PartField(p), PartField(p).number == number, NodeDigestOf, NodeReader(number)(p))
  {
    if !p.OtherField? {
      NodeRoundTrip(p.node);
      if |p.node.digests| == 1 { assert p.node.digests == [p.node.digests[0]]; }
    }
  }

  lemma {:induction false} GatherNodes(ps: seq<DirectoryPart>, number: int)
    requires PartsFit(ps) && (number == 1 || number == 2)
    ensures Gather(ps, NodeReader(number)) == if NodesOkAt(ps, number) then Some(DigestsIn(ps, number)) else None
  {
    if ps != [] {
      var init, last := ps[..|ps| - 1], ps[|ps| - 1];
      assert last in ps;
      GatherNodes(init, number);
      NodesOkSnoc(ps, number);
      assert last in [last] && DigestsIn(init, number) + [] == DigestsIn(init, number);
    }
  }

  lemma NodesParse(ps: seq<DirectoryPart>, number: int)
    requires PartsFit(ps) && (number == 1 || number == 2)
    ensures ParseAll(Select(FieldsOf(ps, PartField), number), NodeDigestOf)
         == if NodesOkAt(ps, number) then Some(DigestsIn(ps, number)) else None
  {
    forall p | p in ps ensures Reads(PartField(p), PartField(p).number == number, NodeDigestOf, NodeReader(number)(p)) {
      NodePartReads(p, number);
    }
    SelectedParse(ps, PartField, number, NodeDigestOf, NodeReader(number));
    GatherNodes(ps, number);
  }

  /**
   * A directory message is read as the digests of its file nodes and of its directory nodes, each in order, whatever
   * other fields it holds, exactly if every node names one digest.
   */
  lemma DirectoryMessageRoundTrip(ps: seq<DirectoryPart>)
    requires PartsFit(ps)
    ensures DirectoryOf(EncodeDirectoryMessage(ps))
         == if NodesOk(ps) then Some(Directory(FilesIn(ps), DirectoriesIn(ps))) else None
  {
    FieldsEncodable(ps, PartField);
    WalkInvertsEncode(FieldsOf(ps, PartField));
    NodesParse(ps, 1);
    NodesParse(ps, 2);
    assert NodesOk(ps) <==> NodesOkAt(ps, 1) && NodesOkAt(ps, 2);
  }

  // ----- trees -----

  /** One field of a tree message. */
  datatype TreePart = Root(parts: seq<DirectoryPart>) | Child(parts: seq<DirectoryPart>) | UnknownField(field: Field)

  function TreePartField(t: TreePart): Field {
    match t
    case Root(ps) => BytesField(1, EncodeDirectoryMessage(ps))
    case Child(ps) => BytesField(2, EncodeDirectoryMessage(ps))
    case UnknownField(f) => f
  }

  function EncodeTree(ts: seq<TreePart>): Bytes { EncodeFields(FieldsOf(ts, TreePartField)) }

  ghost predicate TreePartFits(t: TreePart) {
    match t
    case UnknownField(f) => Encodable(f) && f.number != 1 && f.number != 2
    case _ => PartsFit(t.parts) && |EncodeDirectoryMessage(t.parts)| <= MAX_INT64
  }

  ghost predicate TreeFits(ts: seq<TreePart>) { forall t :: t in ts ==> TreePartFits(t) }

  function RootCount(ts: seq<TreePart>): nat {
    if ts == [] then 0 else RootCount(ts[..|ts| - 1]) + if ts[|ts| - 1].Root? then 1 else 0
  }

  /** The files of the root and of the children, in order. */
  function FilesOfTree(ts: seq<TreePart>): seq<DigestReference> {
    if ts == [] then []
    else
      var last := ts[|ts| - 1];
      FilesOfTree(ts[..|ts| - 1]) + if last.UnknownField? then [] else FilesIn(last.parts)
  }

  ghost predicate EmbedsChild(sha: Bytes -> string, ts: seq<TreePart>, r: DigestReference) {
    exists ps :: Child(ps) in ts && sha(EncodeDirectoryMessage(ps)) == r.hash && |EncodeDirectoryMessage(ps)| == r.size
  }

  ghost predicate ChildSizesAgree(sha: Bytes -> string, ts: seq<TreePart>) {
    forall p, q :: Child(p) in ts && Child(q) in ts && sha(EncodeDirectoryMessage(p)) == sha(EncodeDirectoryMessage(q)) ==>
      |EncodeDirectoryMessage(p)| == |EncodeDirectoryMessage(q)|
  }

  /**
   * One root; nodes that name one digest each; every directory that any of them names among the children, with its size;
   * and sizes of children and of files that do not contradict each other.
   */
  ghost predicate CompleteTree(sha: Bytes -> string, ts: seq<TreePart>) {
    && RootCount(ts) == 1
    && (forall t :: t in ts && !t.UnknownField? ==> NodesOk(t.parts))
    && (forall t, r :: t in ts && !t.UnknownField? && r in DirectoriesIn(t.parts) ==> EmbedsChild(sha, ts, r))
    && ChildSizesAgree(sha, ts) && Consistent(FilesOfTree(ts))
  }

  lemma {:induction false} RootsSelected(ts: seq<TreePart>)
    requires TreeFits(ts)
    ensures |Select(FieldsOf(ts, TreePartField), 1)| == RootCount(ts)
  {
    if ts != [] {
      var init, last := ts[..|ts| - 1], ts[|ts| - 1];
      assert last in ts && ts == init + [last];
      RootsSelected(init);
      SelectSnoc(FieldsOf(init, TreePartField), TreePartField(last), 1);
    }
  }

  lemma {:induction false} FieldOfPart(ts: seq<TreePart>, t: TreePart)
    requires t in ts
    ensures TreePartField(t) in FieldsOf(ts, TreePartField)
  {
    if ts[|ts| - 1] != t { FieldOfPart(ts[..|ts| - 1], t); }
  }

  lemma {:induction false} PartOfField(ts: seq<TreePart>, f: Field) returns (t: TreePart)
    requires f in FieldsOf(ts, TreePartField)
    ensures t in ts && TreePartField(t) == f
  {
    t := ts[|ts| - 1];
    if TreePartField(t) != f { t := PartOfField(ts[..|ts| - 1], f); }
  }

  lemma ChildrenAreParts(ts: seq<TreePart>, m: Bytes)
    requires TreeFits(ts)
    ensures m in Children(FieldsOf(ts, TreePartField)) <==> exists ps :: Child(ps) in ts && EncodeDirectoryMessage(ps) == m
  {
    var fs := FieldsOf(ts, TreePartField);
    SelectMembers(fs, 2);
    if m in Children(fs) {
      var f :| f in Select(fs, 2) && f.data == m;
      var t := PartOfField(ts, f);
      assert Child(t.parts) in ts;
    }
    if exists ps :: Child(ps) in ts && EncodeDirectoryMessage(ps) == m {
      var ps :| Child(ps) in ts && EncodeDirectoryMessage(ps) == m;
      FieldOfPart(ts, Child(ps));
    }
  }

  /** The directories that the parts are read as. */
  function DirectoriesOfTree(ts: seq<TreePart>): seq<Directory> {
    if ts == [] then []
    else
      var last := ts[|ts| - 1];
      DirectoriesOfTree(ts[..|ts| - 1])
      + if last.UnknownField? then [] else [Directory(FilesIn(last.parts), DirectoriesIn(last.parts))]
  }

  predicate AllNodesOk(ts: seq<TreePart>) { forall t :: t in ts && !t.UnknownField? ==> NodesOk(t.parts) }

  lemma AllNodesOkSnoc(ts: seq<TreePart>)
    requires ts != []
    ensures var last := ts[|ts| - 1];
      AllNodesOk(ts) <==> AllNodesOk(ts[..|ts| - 1]) && (last.UnknownField? || NodesOk(last.parts))
  {
    assert ts == ts[..|ts| - 1] + [ts[|ts| - 1]];
  }

  /** What a part adds to the directories of the tree. */
  function ReadTreePart(t: TreePart): Option<seq<Directory>> {
    if t.UnknownField? then Some([])
    else if NodesOk(t.parts) then Some([Directory(FilesIn(t.parts), DirectoriesIn(t.parts))]) else None
  }

  lemma TreePartReads(t: TreePart)
    requires TreePartFits(t)
    ensures Reads(TreePartField(t), HoldsDirectory(TreePartField(t)), DirectoryOf, ReadTreePart(t))
  {
    if !t.UnknownField? { DirectoryMessageRoundTrip(t.parts); }
  }

  lemma {:induction false} GatherDirectories(ts: seq<TreePart>)
    ensures Gather(ts, ReadTreePart) == if AllNodesOk(ts) then Some(DirectoriesOfTree(ts)) else None
  {
    if ts != [] {
      GatherDirectories(ts[..|ts| - 1]);
      AllNodesOkSnoc(ts);
    }
  }

  lemma TreeDirectoriesParse(ts: seq<TreePart>)
    requires TreeFits(ts)
    ensures ParseAll(TreeFields(FieldsOf(ts, TreePartField)), DirectoryOf)
         == if AllNodesOk(ts) then Some(DirectoriesOfTree(ts)) else None
  {
    forall t | t in ts ensures Reads(TreePartField(t), HoldsDirectory(TreePartField(t)), DirectoryOf, ReadTreePart(t)) {
      TreePartReads(t);
    }
    DirectoryFieldsParse(ts, TreePartField, DirectoryOf, ReadTreePart);
    GatherDirectories(ts);
  }

  lemma {:induction false} FilesOfDirectories(ts: seq<TreePart>)
    ensures AllFiles(DirectoriesOfTree(ts)) == FilesOfTree(ts)
  {
    if ts != [] {
      var dirs := DirectoriesOfTree(ts[..|ts| - 1]);
      FilesOfDirectories(ts[..|ts| - 1]);
      if ts[|ts| - 1].UnknownField? {
        assert DirectoriesOfTree(ts) == dirs;
      } else {
        assert DirectoriesOfTree(ts)[..|dirs|] == dirs;
      }
    }
  }

  lemma {:induction false} DirectoryOfPart(ts: seq<TreePart>, d: Directory) returns (t: TreePart)
    requires d in DirectoriesOfTree(ts)
    ensures t in ts && !t.UnknownField? && d == Directory(FilesIn(t.parts), DirectoriesIn(t.parts))
  {
    t := ts[|ts| - 1];
    if d in DirectoriesOfTree(ts[..|ts| - 1]) { t := DirectoryOfPart(ts[..|ts| - 1], d); }
  }

  lemma {:induction false} PartOfDirectory(ts: seq<TreePart>, t: TreePart)
    requires t in ts && !t.UnknownField?
    ensures Directory(FilesIn(t.parts), DirectoriesIn(t.parts)) in DirectoriesOfTree(ts)
  {
    if ts[|ts| - 1] != t { PartOfDirectory(ts[..|ts| - 1], t); }
  }

  lemma EmbeddedIsChild(sha: Bytes -> string, ts: seq<TreePart>, r: DigestReference)
    requires TreeFits(ts)
    ensures Embedded(sha, FieldsOf(ts, TreePartField), r) <==> EmbedsChild(sha, ts, r)
  {
    if Embedded(sha, FieldsOf(ts, TreePartField), r) {
      var m :| m in Children(FieldsOf(ts, TreePartField)) && sha(m) == r.hash && |m| == r.size;
      ChildrenAreParts(ts, m);
    }
    if EmbedsChild(sha, ts, r) {
      var ps :| Child(ps) in ts && sha(EncodeDirectoryMessage(ps)) == r.hash && |EncodeDirectoryMessage(ps)| == r.size;
      ChildrenAreParts(ts, EncodeDirectoryMessage(ps));
    }
  }

  lemma SubdirectoriesAreChildren(sha: Bytes -> string, ts: seq<TreePart>)
    requires TreeFits(ts)
    ensures SubdirectoriesEmbedded(sha, FieldsOf(ts, TreePartField), DirectoriesOfTree(ts)) <==>
      forall t, r :: t in ts && !t.UnknownField? && r in DirectoriesIn(t.parts) ==> EmbedsChild(sha, ts, r)
  {
    var fs, dirs := FieldsOf(ts, TreePartField), DirectoriesOfTree(ts);
    if SubdirectoriesEmbedded(sha, fs, dirs) {
      forall t, r | t in ts && !t.UnknownField? && r in DirectoriesIn(t.parts) ensures EmbedsChild(sha, ts, r) {
        PartOfDirectory(ts, t);
        EmbeddedIsChild(sha, ts, r);
      }
    }
    if forall t, r :: t in ts && !t.UnknownField? && r in DirectoriesIn(t.parts) ==> EmbedsChild(sha, ts, r) {
      forall d, r | d in dirs && r in d.directories ensures Embedded(sha, fs, r) {
        var t := DirectoryOfPart(ts, d);
        EmbeddedIsChild(sha, ts, r);
      }
    }
  }

  lemma ChildSizesAre(sha: Bytes -> string, ts: seq<TreePart>)
    requires TreeFits(ts)
    ensures ChildrenConsistent(sha, FieldsOf(ts, TreePartField)) <==> ChildSizesAgree(sha, ts)
  {
    var fs := FieldsOf(ts, TreePartField);
    forall m ensures m in Children(fs) <==> exists ps :: Child(ps) in ts && EncodeDirectoryMessage(ps) == m {
      ChildrenAreParts(ts, m);
    }
  }

  /**
   * A tree message is read as the files of its root and its children, in order and each hash once, exactly if the tree
   * is complete; otherwise it is rejected.
   */
  lemma TreeRoundTrip(sha: Bytes -> string, ts: seq<TreePart>)
    requires TreeFits(ts)
    ensures TreeOf(sha, EncodeTree(ts)) == if CompleteTree(sha, ts) then Some(FirstPerHash(FilesOfTree(ts))) else None
  {
    FieldsEncodable(ts, TreePartField);
    WalkInvertsEncode(FieldsOf(ts, TreePartField));
    TreeDirectoriesParse(ts);
    RootsSelected(ts);
    FilesOfDirectories(ts);
    SubdirectoriesAreChildren(sha, ts);
    ChildSizesAre(sha, ts);
  }
}
