/** The ActionResult message: which digests an action result refers to. */
module ActionResults {
  import opened Common
  import opened References
  import opened Wire
  import opened Messages

  /** The last size given for each hash. */
  ghost function SizesOf(refs: seq<DigestReference>): map<string, int> {
    if refs == [] then map[]
    else SizesOf(refs[..|refs| - 1])[refs[|refs| - 1].hash := refs[|refs| - 1].size]
  }

  /** Each reference gives its hash the size it already had. */
  ghost predicate OneSizeEach(refs: seq<DigestReference>) {
    refs == []
    || var init, last := refs[..|refs| - 1], refs[|refs| - 1];
       OneSizeEach(init) && (last.hash in SizesOf(init) ==> SizesOf(init)[last.hash] == last.size)
  }

  lemma {:induction false} SizesOfLooksUp(refs: seq<DigestReference>)
    ensures forall h :: h in SizesOf(refs) ==> exists r :: r in refs && r.hash == h && r.size == SizesOf(refs)[h]
    ensures forall r :: r in refs ==> r.hash in SizesOf(refs)
    ensures OneSizeEach(refs) ==> forall r :: r in refs ==> SizesOf(refs)[r.hash] == r.size
  {
    if refs != [] {
      var init, last := refs[..|refs| - 1], refs[|refs| - 1];
      SizesOfLooksUp(init);
      assert refs == init + [last];
      forall h | h in SizesOf(refs) ensures exists r :: r in refs && r.hash == h && r.size == SizesOf(refs)[h] {
        if h == last.hash {
          assert last in refs;
        } else {
          var r :| r in init && r.hash == h && r.size == SizesOf(init)[h];
          assert r in refs;
        }
      }
    }
  }

  lemma {:induction false} OneSizeEachIsConsistent(refs: seq<DigestReference>)
    ensures OneSizeEach(refs) <==> Consistent(refs)
  {
    if refs != [] {
      var init, last := refs[..|refs| - 1], refs[|refs| - 1];
      OneSizeEachIsConsistent(init);
      SizesOfLooksUp(init);
      SizesOfLooksUp(refs);
      assert refs == init + [last];
      assert last in refs;
    }
  }

  /** Digests without repetition, in order of first occurrence; one size per hash. */
  class DigestCollection {
    var values: seq<DigestReference>
    var sizes: map<string, int>
    ghost var added: seq<DigestReference>

    ghost predicate Valid()
      reads this
    {
      OneSizeEach(added) && values == FirstPerHash(added) && sizes == SizesOf(added)
    }

    constructor ()
      ensures Valid() && added == []
    {
      values, sizes, added := [], map[], [];
    }

    /** Fails exactly when the hash is already there with another size. */
    method Add(r: DigestReference) returns (ok: bool)
      requires Valid()
      modifies this
      ensures ok <==> Consistent(old(added) + [r])
      ensures added == if ok then old(added) + [r] else old(added)
      ensures Valid()
    {
      ghost var more := added + [r];
      assert more[..|added|] == added;
      OneSizeEachIsConsistent(more);
      HasHashIffSized(added, r.hash);
      if r.hash in sizes {
        if sizes[r.hash] != r.size {
          return false;
        }
        assert SizesOf(more) == sizes;
        added := more;
        return true;
      }
      sizes := sizes[r.hash := r.size];
      values := values + [r];
      added := more;
      ok := true;
    }
  }

  lemma HasHashIffSized(added: seq<DigestReference>, h: string)
    ensures HasHash(FirstPerHash(added), h) <==> h in SizesOf(added)
  {
    FirstPerHashProperties(added);
    SizesOfLooksUp(added);
    var kept := FirstPerHash(added);
    if HasHash(kept, h) {
      var i :| 0 <= i < |kept| && kept[i].hash == h;
      assert kept[i] in kept;
    }
  }

  // ----- OutputFile -----

  ghost function AtMostOne(digests: Option<seq<DigestReference>>): Option<Option<DigestReference>> {
    if digests.None? || |digests.value| > 1 then None
    else Some(if digests.value == [] then None else Some(digests.value[0]))
  }

  lemma AtMostOneGiven(digests: Option<seq<DigestReference>>, o: Option<DigestReference>)
    requires digests == Some(ToSeq(o))
    ensures AtMostOne(digests) == Some(o)
  {
  }

  datatype OutputFile = OutputFile(digest: Option<DigestReference>, inlined: bool)

  /** At most one digest, any number of inline contents, and at least one of the two. */
  ghost function OutputFileFrom(fs: seq<Field>): Option<OutputFile> {
    var digest, contents := AtMostOne(DigestsAt(fs, 2)), Select(fs, 5);
    if digest.Some? && AllBytes(contents) && (digest.value.Some? || contents != [])
    then Some(OutputFile(digest.value, contents != [])) else None
  }

  ghost function OutputFileOf(data: Bytes): Option<OutputFile> {
    match Walk(data) case None => None case Some(fs) => OutputFileFrom(fs)
  }

  method ParseOutputFile(data: Bytes) returns (r: Option<OutputFile>)
    ensures r == OutputFileOf(data)
  {
    var walk := VisitWireFields(data);
    if walk.None? { return None; }
    r := OutputFileFromFields(walk.value);
  }

  /** A digest field that may be given once. */
  method TakeDigest(fs: seq<Field>, i: nat, number: int, taken: Option<DigestReference>)
    returns (ok: bool, next: Option<DigestReference>)
    requires i < |fs| && fs[i].number == number && DigestsAt(fs[..i], number) == Some(ToSeq(taken))
    ensures ok ==> DigestsAt(fs[..i + 1], number) == Some(ToSeq(next))
    ensures !ok ==> AtMostOne(DigestsAt(fs, number)).None?
  {
    ParseUpTo(fs, i, number, DigestOf);
    var reference := ParseDigestField(fs[i]);
    if reference.None? || taken.Some? {
      return false, None;
    }
    ok, next := true, reference;
    assert [] + [reference.value] == ToSeq(next);
  }

  lemma OtherDigestField(fs: seq<Field>, i: nat, number: int)
    requires i < |fs| && fs[i].number != number
    ensures DigestsAt(fs[..i + 1], number) == DigestsAt(fs[..i], number)
  {
    SelectUpTo(fs, i, number);
    assert Select(fs[..i + 1], number) == Select(fs[..i], number);
  }

  method OutputFileFromFields(fs: seq<Field>) returns (r: Option<OutputFile>)
    ensures r == OutputFileFrom(fs)
  {
    var digest: Option<DigestReference>, inlined := None, false;
    for i := 0 to |fs|
      invariant DigestsAt(fs[..i], 2) == Some(ToSeq(digest))
      invariant AllBytes(Select(fs[..i], 5)) && (inlined <==> Select(fs[..i], 5) != [])
    {
      BytesUpTo(fs, i, 5);
      if fs[i].number == 2 {
        var ok;
        ok, digest := TakeDigest(fs, i, 2, digest);
        if !ok { return None; }
      } else {
        OtherDigestField(fs, i, 2);
        if fs[i].number == 5 {
          if fs[i].wireType != BYTES { return None; }
          inlined := true;
        }
      }
    }
    assert fs[..|fs|] == fs;
    AtMostOneGiven(DigestsAt(fs, 2), digest);
    if digest.None? && !inlined {
      return None;
    }
    r := Some(OutputFile(digest, inlined));
  }

  // ----- OutputDirectory -----

  datatype OutputDirectory = OutputDirectory(tree: Option<DigestReference>, root: Option<DigestReference>)

  /** At most one tree digest and one root directory digest, and at least one of the two. */
  ghost function OutputDirectoryFrom(fs: seq<Field>): Option<OutputDirectory> {
    var tree, root := AtMostOne(DigestsAt(fs, 3)), AtMostOne(DigestsAt(fs, 5));
    if tree.Some? && root.Some? && (tree.value.Some? || root.value.Some?)
    then Some(OutputDirectory(tree.value, root.value)) else None
  }

  ghost function OutputDirectoryOf(data: Bytes): Option<OutputDirectory> {
    match Walk(data) case None => None case Some(fs) => OutputDirectoryFrom(fs)
  }

  method ParseOutputDirectory(data: Bytes) returns (r: Option<OutputDirectory>)
    ensures r == OutputDirectoryOf(data)
  {
    var walk := VisitWireFields(data);
    if walk.None? { return None; }
    r := OutputDirectoryFromFields(walk.value);
  }

  method OutputDirectoryFromFields(fs: seq<Field>) returns (r: Option<OutputDirectory>)
    ensures r == OutputDirectoryFrom(fs)
  {
    var tree, root: Option<DigestReference> := None, None;
    for i := 0 to |fs|
      invariant DigestsAt(fs[..i], 3) == Some(ToSeq(tree))
      invariant DigestsAt(fs[..i], 5) == Some(ToSeq(root))
    {
      var ok := true;
      if fs[i].number == 3 {
        OtherDigestField(fs, i, 5);
        ok, tree := TakeDigest(fs, i, 3, tree);
      } else if fs[i].number == 5 {
        OtherDigestField(fs, i, 3);
        ok, root := TakeDigest(fs, i, 5, root);
      } else {
        OtherDigestField(fs, i, 3);
        OtherDigestField(fs, i, 5);
      }
      if !ok { return None; }
    }
    assert fs[..|fs|] == fs;
    AtMostOneGiven(DigestsAt(fs, 3), tree);
    AtMostOneGiven(DigestsAt(fs, 5), root);
    if tree.None? && root.None? {
      return None;
    }
    r := Some(OutputDirectory(tree, root));
  }

  // ----- ActionResult -----

  datatype ActionReferences = ActionReferences(
    blobs: seq<DigestReference>,
    trees: seq<DigestReference>,
    directories: seq<DigestReference>)

  /** The digests of the output files whose contents are not inlined. */
  function FileDigests(files: seq<OutputFile>): seq<DigestReference> {
    if files == [] then []
    else
      var last := files[|files| - 1];
      FileDigests(files[..|files| - 1]) + if last.digest.Some? && !last.inlined then [last.digest.value] else []
  }

  function TreeDigests(dirs: seq<OutputDirectory>): seq<DigestReference> {
    if dirs == [] then [] else TreeDigests(dirs[..|dirs| - 1]) + ToSeq(dirs[|dirs| - 1].tree)
  }

  function RootDigests(dirs: seq<OutputDirectory>): seq<DigestReference> {
    if dirs == [] then [] else RootDigests(dirs[..|dirs| - 1]) + ToSeq(dirs[|dirs| - 1].root)
  }

  /** The last digest given for an output stream, unless the stream is inlined. */
  function StreamDigest(digests: seq<DigestReference>, raw: seq<Field>): seq<DigestReference> {
    if raw == [] && digests != [] then [digests[|digests| - 1]] else []
  }

  /** What the fields of an action result say, before repetitions are removed. */
  datatype RawResult = RawResult(
    files: seq<OutputFile>,
    dirs: seq<OutputDirectory>,
    stdout: seq<DigestReference>,
    stderr: seq<DigestReference>)

  ghost function RawFrom(fs: seq<Field>): Option<RawResult> {
    var files, dirs := ParseAll(Select(fs, 2), OutputFileOf), ParseAll(Select(fs, 3), OutputDirectoryOf);
    var stdout, stderr := DigestsAt(fs, 6), DigestsAt(fs, 8);
    if files.Some? && dirs.Some? && stdout.Some? && stderr.Some? && AllBytes(Select(fs, 5)) && AllBytes(Select(fs, 7))
    then Some(RawResult(files.value, dirs.value, stdout.value, stderr.value)) else None
  }

  ghost function BlobDigests(raw: RawResult, fs: seq<Field>): seq<DigestReference> {
    FileDigests(raw.files) + StreamDigest(raw.stdout, Select(fs, 5)) + StreamDigest(raw.stderr, Select(fs, 7))
  }

  /**
   * The references of an action result: the blobs, trees and root directories it names, each hash once and in order
   * of first mention; nothing if a field is malformed or a hash is given two sizes.
   */
  ghost function ActionResultFrom(fs: seq<Field>): Option<ActionReferences> {
    match RawFrom(fs)
    case None => None
    case Some(raw) =>
      var blobs, trees, roots := BlobDigests(raw, fs), TreeDigests(raw.dirs), RootDigests(raw.dirs);
      if Consistent(blobs) && Consistent(trees) && Consistent(roots)
      then Some(ActionReferences(FirstPerHash(blobs), FirstPerHash(trees), FirstPerHash(roots))) else None
  }

  ghost function ActionResultOf(data: Bytes): Option<ActionReferences> {
    match Walk(data) case None => None case Some(fs) => ActionResultFrom(fs)
  }

  // ----- going through the fields -----

  /** What one more field adds to the raw result. */
  ghost function RawStep(raw: RawResult, f: Field): Option<RawResult> {
    if f.number in {2, 3, 5, 6, 7, 8} && f.wireType != BYTES then None
    else if f.number == 2 then
      match OutputFileOf(f.data) case None => None case Some(x) => Some(raw.(files := raw.files + [x]))
    else if f.number == 3 then
      match OutputDirectoryOf(f.data) case None => None case Some(x) => Some(raw.(dirs := raw.dirs + [x]))
    else if f.number == 6 then
      match DigestOf(f.data) case None => None case Some(x) => Some(raw.(stdout := raw.stdout + [x]))
    else if f.number == 8 then
      match DigestOf(f.data) case None => None case Some(x) => Some(raw.(stderr := raw.stderr + [x]))
    else Some(raw)
  }

  lemma RawUpTo(fs: seq<Field>, i: nat)
    requires i < |fs|
    ensures RawFrom(fs[..i + 1]) ==
      match RawFrom(fs[..i]) case None => None case Some(raw) => RawStep(raw, fs[i])
    ensures RawFrom(fs[..i + 1]).None? ==> RawFrom(fs).None?
  {
    ParseUpTo(fs, i, 2, OutputFileOf);
    ParseUpTo(fs, i, 3, OutputDirectoryOf);
    ParseUpTo(fs, i, 6, DigestOf);
    ParseUpTo(fs, i, 8, DigestOf);
    BytesUpTo(fs, i, 5);
    BytesUpTo(fs, i, 7);
  }

  lemma {:induction false} FileDigestsConcat(a: seq<OutputFile>, b: seq<OutputFile>)
    ensures FileDigests(a + b) == FileDigests(a) + FileDigests(b)
  {
    if b == [] {
      assert a + b == a;
    } else {
      assert (a + b)[..|a + b| - 1] == a + b[..|b| - 1];
      FileDigestsConcat(a, b[..|b| - 1]);
    }
  }

  lemma {:induction false} DirectoryDigestsConcat(a: seq<OutputDirectory>, b: seq<OutputDirectory>)
    ensures TreeDigests(a + b) == TreeDigests(a) + TreeDigests(b)
    ensures RootDigests(a + b) == RootDigests(a) + RootDigests(b)
  {
    if b == [] {
      assert a + b == a;
    } else {
      assert (a + b)[..|a + b| - 1] == a + b[..|b| - 1];
      DirectoryDigestsConcat(a, b[..|b| - 1]);
    }
  }

  /** The output files and directories of `a` come first in `b`. */
  predicate RawPrefix(a: RawResult, b: RawResult) { a.files <= b.files && a.dirs <= b.dirs }

  lemma RawStepExtends(raw: RawResult, f: Field)
    ensures RawStep(raw, f).Some? ==> RawPrefix(raw, RawStep(raw, f).value)
  {
  }

  /** The raw result so far is a prefix of the final one. */
  lemma {:induction false} RawSoFar(fs: seq<Field>, i: nat)
    requires i <= |fs| && RawFrom(fs[..i]).Some? && RawFrom(fs).Some?
    ensures RawPrefix(RawFrom(fs[..i]).value, RawFrom(fs).value)
    decreases |fs| - i
  {
    if i == |fs| {
      assert fs[..i] == fs;
    } else {
      RawUpTo(fs, i);
      RawStepExtends(RawFrom(fs[..i]).value, fs[i]);
      RawSoFar(fs, i + 1);
    }
  }

  lemma ConsistentPrefix(a: seq<DigestReference>, b: seq<DigestReference>)
    requires Consistent(a + b)
    ensures Consistent(a)
  {
    assert forall r :: r in a ==> r in a + b;
  }

  lemma ConsistentParts(a: RawResult, b: RawResult)
    requires RawPrefix(a, b)
    ensures Consistent(FileDigests(b.files)) ==> Consistent(FileDigests(a.files))
    ensures Consistent(TreeDigests(b.dirs)) ==> Consistent(TreeDigests(a.dirs))
    ensures Consistent(RootDigests(b.dirs)) ==> Consistent(RootDigests(a.dirs))
  {
    var files, dirs := b.files[|a.files|..], b.dirs[|a.dirs|..];
    assert b.files == a.files + files && b.dirs == a.dirs + dirs;
    FileDigestsConcat(a.files, files);
    DirectoryDigestsConcat(a.dirs, dirs);
    if Consistent(FileDigests(b.files)) { ConsistentPrefix(FileDigests(a.files), FileDigests(files)); }
    if Consistent(TreeDigests(b.dirs)) { ConsistentPrefix(TreeDigests(a.dirs), TreeDigests(dirs)); }
    if Consistent(RootDigests(b.dirs)) { ConsistentPrefix(RootDigests(a.dirs), RootDigests(dirs)); }
  }

  ghost predicate ConsistentRaw(raw: RawResult) {
    Consistent(FileDigests(raw.files)) && Consistent(TreeDigests(raw.dirs)) && Consistent(RootDigests(raw.dirs))
  }

  lemma ConsistentWhole(fs: seq<Field>)
    requires ActionResultFrom(fs).Some?
    ensures RawFrom(fs).Some? && ConsistentRaw(RawFrom(fs).value)
  {
    var all := RawFrom(fs).value;
    var stdout, stderr := StreamDigest(all.stdout, Select(fs, 5)), StreamDigest(all.stderr, Select(fs, 7));
    ConsistentPrefix(FileDigests(all.files) + stdout, stderr);
    ConsistentPrefix(FileDigests(all.files), stdout);
  }

  /** A valid action result gives consistent sizes all along. */
  lemma ConsistentSoFar(fs: seq<Field>, i: nat)
    requires i <= |fs| && RawFrom(fs[..i]).Some? && ActionResultFrom(fs).Some?
    ensures ConsistentRaw(RawFrom(fs[..i]).value)
  {
    ConsistentWhole(fs);
    RawSoFar(fs, i);
    ConsistentParts(RawFrom(fs[..i]).value, RawFrom(fs).value);
  }

  lemma DigestsSnoc(raw: RawResult, file: OutputFile, dir: OutputDirectory)
    ensures FileDigests(raw.files + [file]) ==
      FileDigests(raw.files) + if file.digest.Some? && !file.inlined then [file.digest.value] else []
    ensures TreeDigests(raw.dirs + [dir]) == TreeDigests(raw.dirs) + ToSeq(dir.tree)
    ensures RootDigests(raw.dirs + [dir]) == RootDigests(raw.dirs) + ToSeq(dir.root)
  {
    assert (raw.files + [file])[..|raw.files|] == raw.files;
    assert (raw.dirs + [dir])[..|raw.dirs|] == raw.dirs;
  }

  /** Add an optional digest. */
  method AddIfAny(c: DigestCollection, o: Option<DigestReference>) returns (ok: bool)
    requires c.Valid()
    modifies c
    ensures c.Valid()
    ensures ok ==> c.added == old(c.added) + ToSeq(o)
    ensures !ok ==> !Consistent(old(c.added) + ToSeq(o))
  {
    ok := true;
    if o.Some? {
      ok := c.Add(o.value);
    } else {
      assert c.added + [] == c.added;
    }
  }

  function Last<T>(s: seq<T>): Option<T> { if s == [] then None else Some(s[|s| - 1]) }

  method VisitFile(f: Field, blobs: DigestCollection, ghost raw: RawResult) returns (ok: bool)
    requires f.number == 2 && blobs.Valid() && blobs.added == FileDigests(raw.files)
    modifies blobs
    ensures blobs.Valid()
    ensures ok ==> RawStep(raw, f).Some? && blobs.added == FileDigests(RawStep(raw, f).value.files)
    ensures !ok && RawStep(raw, f).Some? ==> !Consistent(FileDigests(RawStep(raw, f).value.files))
  {
    if f.wireType != BYTES { return false; }
    var file := ParseOutputFile(f.data);
    if file.None? { return false; }
    DigestsSnoc(raw, file.value, OutputDirectory(None, None));
    ok := AddIfAny(blobs, if file.value.inlined then None else file.value.digest);
  }

  method VisitDirectory(f: Field, trees: DigestCollection, directories: DigestCollection, ghost raw: RawResult)
    returns (ok: bool)
    requires f.number == 3 && trees != directories && trees.Valid() && directories.Valid()
    requires trees.added == TreeDigests(raw.dirs) && directories.added == RootDigests(raw.dirs)
    modifies trees, directories
    ensures trees.Valid() && directories.Valid()
    ensures ok ==> RawStep(raw, f).Some? && trees.added == TreeDigests(RawStep(raw, f).value.dirs)
    ensures ok ==> directories.added == RootDigests(RawStep(raw, f).value.dirs)
    ensures !ok && RawStep(raw, f).Some? ==>
      !Consistent(TreeDigests(RawStep(raw, f).value.dirs)) || !Consistent(RootDigests(RawStep(raw, f).value.dirs))
  {
    if f.wireType != BYTES { return false; }
    var dir := ParseOutputDirectory(f.data);
    if dir.None? { return false; }
    DigestsSnoc(raw, OutputFile(None, false), dir.value);
    ok := AddIfAny(trees, dir.value.tree);
    if ok {
      ok := AddIfAny(directories, dir.value.root);
    }
  }

  /** The output streams, by digest or inline. */
  datatype Streams = Streams(
    stdout: Option<DigestReference>,
    stderr: Option<DigestReference>,
    stdoutInline: bool,
    stderrInline: bool)

  ghost predicate StreamsOf(s: Streams, raw: RawResult, fs: seq<Field>) {
    && s.stdout == Last(raw.stdout) && s.stderr == Last(raw.stderr)
    && (s.stdoutInline <==> Select(fs, 5) != []) && (s.stderrInline <==> Select(fs, 7) != [])
  }

  /** The streams hold what the raw result says so far, and whether one was inlined. */
  ghost predicate StreamsAfter(s: Streams, before: Streams, raw: RawResult, f: Field) {
    && s.stdout == Last(raw.stdout) && s.stderr == Last(raw.stderr)
    && (s.stdoutInline <==> before.stdoutInline || f.number == 5)
    && (s.stderrInline <==> before.stderrInline || f.number == 7)
  }

  /** Every other field: output streams, and fields that are not read. */
  method VisitStream(f: Field, streams: Streams, ghost raw: RawResult) returns (s: Option<Streams>)
    requires f.number != 2 && f.number != 3
    requires streams.stdout == Last(raw.stdout) && streams.stderr == Last(raw.stderr)
    ensures s.Some? <==> RawStep(raw, f).Some?
    ensures s.Some? ==> StreamsAfter(s.value, streams, RawStep(raw, f).value, f)
  {
    if f.number !in {5, 6, 7, 8} { return Some(streams); }
    if f.wireType != BYTES { return None; }
    if f.number == 5 { return Some(streams.(stdoutInline := true)); }
    if f.number == 7 { return Some(streams.(stderrInline := true)); }
    var reference := ParseDigest(f.data);
    if reference.None? { return None; }
    s := Some(if f.number == 6 then streams.(stdout := reference) else streams.(stderr := reference));
  }

  lemma StreamsUpTo(fs: seq<Field>, i: nat, s: Streams, t: Streams, raw: RawResult, next: RawResult)
    requires i < |fs| && StreamsOf(s, raw, fs[..i])
    requires StreamsAfter(t, s, next, fs[i])
    ensures StreamsOf(t, next, fs[..i + 1])
  {
    BytesUpTo(fs, i, 5);
    BytesUpTo(fs, i, 7);
  }

  /** The three collections hold what the raw result says so far. */
  ghost predicate Collected(blobs: DigestCollection, trees: DigestCollection, directories: DigestCollection, raw: RawResult)
    reads blobs, trees, directories
  {
    && blobs != trees && blobs != directories && trees != directories
    && blobs.Valid() && trees.Valid() && directories.Valid()
    && blobs.added == FileDigests(raw.files)
    && trees.added == TreeDigests(raw.dirs) && directories.added == RootDigests(raw.dirs)
  }

  lemma EntryKeepsStreams(raw: RawResult, f: Field)
    ensures RawStep(raw, f).Some? && f.number == 2 ==>
      var next := RawStep(raw, f).value; next.stdout == raw.stdout && next.stderr == raw.stderr && next.dirs == raw.dirs
    ensures RawStep(raw, f).Some? && f.number == 3 ==>
      var next := RawStep(raw, f).value; next.stdout == raw.stdout && next.stderr == raw.stderr && next.files == raw.files
    ensures RawStep(raw, f).Some? && f.number != 2 && f.number != 3 ==>
      var next := RawStep(raw, f).value; next.files == raw.files && next.dirs == raw.dirs
  {
  }

  /** One call of the field visitor. */
  method VisitField(f: Field, blobs: DigestCollection, trees: DigestCollection, directories: DigestCollection,
                    streams: Streams, ghost raw: RawResult) returns (s: Option<Streams>)
    requires Collected(blobs, trees, directories, raw)
    requires streams.stdout == Last(raw.stdout) && streams.stderr == Last(raw.stderr)
    modifies blobs, trees, directories
    ensures s.None? && RawStep(raw, f).Some? ==> !ConsistentRaw(RawStep(raw, f).value)
    ensures s.Some? ==> RawStep(raw, f).Some? && Collected(blobs, trees, directories, RawStep(raw, f).value)
    ensures s.Some? ==> StreamsAfter(s.value, streams, RawStep(raw, f).value, f)
  {
    EntryKeepsStreams(raw, f);
    if f.number == 2 {
      var ok := VisitFile(f, blobs, raw);
      return if ok then Some(streams) else None;
    }
    if f.number == 3 {
      var ok := VisitDirectory(f, trees, directories, raw);
      return if ok then Some(streams) else None;
    }
    s := VisitStream(f, streams, raw);
  }

  method ParseActionResult(data: Bytes) returns (r: Option<ActionReferences>)
    ensures r == ActionResultOf(data)
  {
    var walk := VisitWireFields(data);
    if walk.None? { return None; }
    r := ReferencesFromFields(walk.value);
  }

  method ReferencesFromFields(fs: seq<Field>) returns (r: Option<ActionReferences>)
    ensures r == ActionResultFrom(fs)
  {
    var blobs := new DigestCollection();
    var trees := new DigestCollection();
    var directories := new DigestCollection();
    var streams := Streams(None, None, false, false);
    ghost var raw := RawResult([], [], [], []);
    for i := 0 to |fs|
      invariant fresh(blobs) && fresh(trees) && fresh(directories)
      invariant Collected(blobs, trees, directories, raw)
      invariant RawFrom(fs[..i]) == Some(raw)
      invariant StreamsOf(streams, raw, fs[..i])
    {
      RawUpTo(fs, i);
      var s := VisitField(fs[i], blobs, trees, directories, streams, raw);
      if s.None? {
        if RawFrom(fs[..i + 1]).Some? && ActionResultFrom(fs).Some? { ConsistentSoFar(fs, i + 1); }
        return None;
      }
      ghost var next := RawStep(raw, fs[i]).value;
      StreamsUpTo(fs, i, streams, s.value, raw, next);
      streams, raw := s.value, next;
    }
    assert fs[..|fs|] == fs;
    BlobDigestsOf(streams, raw, fs);
    var ok := FinishBlobs(blobs, streams);
    if !ok { return None; }
    ConsistentWhenCollected(blobs, trees, directories, raw, fs);
    r := Some(ActionReferences(blobs.values, trees.values, directories.values));
  }

  lemma ConsistentWhenCollected(blobs: DigestCollection, trees: DigestCollection, directories: DigestCollection,
                                raw: RawResult, fs: seq<Field>)
    requires blobs.Valid() && trees.Valid() && directories.Valid() && RawFrom(fs) == Some(raw)
    requires blobs.added == BlobDigests(raw, fs)
    requires trees.added == TreeDigests(raw.dirs) && directories.added == RootDigests(raw.dirs)
    ensures ActionResultFrom(fs) == Some(ActionReferences(blobs.values, trees.values, directories.values))
  {
    OneSizeEachIsConsistent(blobs.added);
    OneSizeEachIsConsistent(trees.added);
    OneSizeEachIsConsistent(directories.added);
  }

  function StdoutDigest(s: Streams): Option<DigestReference> { if s.stdoutInline then None else s.stdout }
  function StderrDigest(s: Streams): Option<DigestReference> { if s.stderrInline then None else s.stderr }

  lemma BlobDigestsOf(s: Streams, raw: RawResult, fs: seq<Field>)
    requires StreamsOf(s, raw, fs)
    ensures BlobDigests(raw, fs) == FileDigests(raw.files) + ToSeq(StdoutDigest(s)) + ToSeq(StderrDigest(s))
  {
    assert StreamDigest(raw.stdout, Select(fs, 5)) == ToSeq(StdoutDigest(s));
    assert StreamDigest(raw.stderr, Select(fs, 7)) == ToSeq(StderrDigest(s));
  }

  /** The digests of streams that are not inlined join the blobs. */
  method FinishBlobs(blobs: DigestCollection, s: Streams) returns (ok: bool)
    requires blobs.Valid()
    modifies blobs
    ensures blobs.Valid()
    ensures ok <==> Consistent(old(blobs.added) + ToSeq(StdoutDigest(s)) + ToSeq(StderrDigest(s)))
    ensures ok ==> blobs.added == old(blobs.added) + ToSeq(StdoutDigest(s)) + ToSeq(StderrDigest(s))
  {
    ghost var first := blobs.added + ToSeq(StdoutDigest(s));
    ok := AddIfAny(blobs, StdoutDigest(s));
    if !ok {
      if Consistent(first + ToSeq(StderrDigest(s))) { ConsistentPrefix(first, ToSeq(StderrDigest(s))); }
      return;
    }
    ok := AddIfAny(blobs, StderrDigest(s));
    OneSizeEachIsConsistent(blobs.added);
  }

  lemma SameSelections(fs: seq<Field>, gs: seq<Field>)
    requires Select(fs, 2) == Select(gs, 2) && Select(fs, 3) == Select(gs, 3) && Select(fs, 5) == Select(gs, 5)
    requires Select(fs, 6) == Select(gs, 6) && Select(fs, 7) == Select(gs, 7) && Select(fs, 8) == Select(gs, 8)
    ensures ActionResultFrom(fs) == ActionResultFrom(gs)
  {
    assert RawFrom(fs) == RawFrom(gs);
  }

  /** Well-formed fields of numbers the parser does not read change nothing, wherever they are inserted. */
  lemma {:induction false} UnknownFieldsIgnored(a: Bytes, unknown: Bytes, b: Bytes)
    requires Walk(a).Some? && Walk(unknown).Some?
    requires forall f :: f in Walk(unknown).value ==> f.number !in {2, 3, 5, 6, 7, 8}
    ensures ActionResultOf(a + unknown + b) == ActionResultOf(a + b)
  {
    WalkConcat(a, unknown);
    WalkConcat(a + unknown, b);
    WalkConcat(a, b);
    if Walk(b).Some? {
      FieldsInBetweenIgnored(Walk(a).value, Walk(unknown).value, Walk(b).value);
    }
  }

  lemma FieldsInBetweenIgnored(x: seq<Field>, u: seq<Field>, y: seq<Field>)
    requires forall f :: f in u ==> f.number !in {2, 3, 5, 6, 7, 8}
    ensures ActionResultFrom(x + u + y) == ActionResultFrom(x + y)
  {
    SelectSkips(x, u, y, 2);
    SelectSkips(x, u, y, 3);
    SelectSkips(x, u, y, 5);
    SelectSkips(x, u, y, 6);
    SelectSkips(x, u, y, 7);
    SelectSkips(x, u, y, 8);
    SameSelections(x + u + y, x + y);
  }
}
