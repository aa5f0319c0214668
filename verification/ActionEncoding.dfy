/** The encoders of digests and action results, and the proof that parsing inverts them. */
module ActionEncoding {
  import opened Common
  import opened References
  import opened Wire
  import opened Messages
  import opened ActionResults

  // ----- digests -----

  ghost predicate EncodableDigest(r: DigestReference) { DigestPattern(r.hash) && 0 <= r.size <= MAX_INT64 }

  lemma HexIsLatin(s: string)
    requires DigestPattern(s)
    ensures Latin(s)
  {
    forall i | 0 <= i < |s| ensures s[i] as int < 256 { assert IsLowerHex(s[i]); }
  }

  function HashBytes(hash: string): Bytes { if Latin(hash) then FromText(hash) else [] }

  function DigestFields(r: DigestReference): seq<Field> {
    [Field(1, BYTES, HashBytes(r.hash), 0), Field(2, VARINT, [], r.size)]
  }

  function EncodeDigest(r: DigestReference): Bytes { EncodeFields(DigestFields(r)) }

  lemma SelectPair(a: Field, b: Field, number: int)
    ensures Select([a, b], number) == (if a.number == number then [a] else []) + (if b.number == number then [b] else [])
  {
    assert [a, b] == [a] + [b];
    SelectSnoc([a], b, number);
    assert [a] == [] + [a];
    SelectSnoc([], a, number);
  }

  /** Parsing inverts the digest encoder. */
  lemma DigestRoundTrip(r: DigestReference)
    requires EncodableDigest(r)
    ensures DigestOf(EncodeDigest(r)) == Some(r)
  {
    HexIsLatin(r.hash);
    var fs := DigestFields(r);
    assert Encodable(fs[0]) && Encodable(fs[1]);
    WalkInvertsEncode(fs);
    SelectPair(fs[0], fs[1], 1);
    SelectPair(fs[0], fs[1], 2);
    assert ToText(FromText(r.hash)) == r.hash;
  }

  // ----- parts of an action result -----

  /** An output file as a client encodes it. */
  datatype FileEntry = FileEntry(digest: DigestReference, contents: Option<Bytes>)

  /** An action result as a client encodes it. */
  datatype ActionMessage = ActionMessage(
    files: seq<FileEntry>,
    dirs: seq<OutputDirectory>,
    stdoutRaw: Option<Bytes>,
    stdout: Option<DigestReference>,
    stderrRaw: Option<Bytes>,
    stderr: Option<DigestReference>)

  function BytesField(number: int, data: Bytes): Field { Field(number, BYTES, data, 0) }

  function DigestField(number: int, o: Option<DigestReference>): seq<Field> {
    match o case None => [] case Some(r) => [BytesField(number, EncodeDigest(r))]
  }

  function RawField(number: int, o: Option<Bytes>): seq<Field> {
    match o case None => [] case Some(b) => [BytesField(number, b)]
  }

  function EncodeFile(e: FileEntry): Bytes { EncodeFields(DigestField(2, Some(e.digest)) + RawField(5, e.contents)) }

  function EncodeDirectory(d: OutputDirectory): Bytes { EncodeFields(DigestField(3, d.tree) + DigestField(5, d.root)) }

  /** One bytes field for every element. */
  function Section<T>(xs: seq<T>, number: int, encode: T -> Bytes): seq<Field> {
    if xs == [] then [] else Section(xs[..|xs| - 1], number, encode) + [BytesField(number, encode(xs[|xs| - 1]))]
  }

  function FileSection(files: seq<FileEntry>): seq<Field> { Section(files, 2, EncodeFile) }

  function DirectorySection(dirs: seq<OutputDirectory>): seq<Field> { Section(dirs, 3, EncodeDirectory) }

  function StreamSection(m: ActionMessage): seq<Field> {
    RawField(5, m.stdoutRaw) + DigestField(6, m.stdout) + RawField(7, m.stderrRaw) + DigestField(8, m.stderr)
  }

  function ActionFields(m: ActionMessage): seq<Field> {
    FileSection(m.files) + DirectorySection(m.dirs) + StreamSection(m)
  }

  function EncodeAction(m: ActionMessage): Bytes { EncodeFields(ActionFields(m)) }

  // ----- what a length prefix can hold -----

  ghost predicate BytesFit(o: Option<Bytes>) { o.Some? ==> |o.value| <= MAX_INT64 }

  ghost predicate DigestFits(o: Option<DigestReference>) {
    o.Some? ==> EncodableDigest(o.value) && |EncodeDigest(o.value)| <= MAX_INT64
  }

  ghost predicate FileFits(e: FileEntry) {
    DigestFits(Some(e.digest)) && BytesFit(e.contents) && |EncodeFile(e)| <= MAX_INT64
  }

  ghost predicate DirectoryFits(d: OutputDirectory) {
    DigestFits(d.tree) && DigestFits(d.root) && (d.tree.Some? || d.root.Some?) && |EncodeDirectory(d)| <= MAX_INT64
  }

  /** Every part is a valid digest or short enough for a length prefix. */
  ghost predicate MessageFits(m: ActionMessage) {
    && (forall e :: e in m.files ==> FileFits(e))
    && (forall d :: d in m.dirs ==> DirectoryFits(d))
    && BytesFit(m.stdoutRaw) && DigestFits(m.stdout) && BytesFit(m.stderrRaw) && DigestFits(m.stderr)
  }

  // ----- encodings are short -----

  lemma {:induction false} VarintShort(v: nat, i: nat)
    requires i <= 9 && v < VarintCap(i)
    ensures |AppendVarint(v)| <= 10 - i
    decreases 9 - i
  {
    if v >= 128 {
      VarintShort(v / 128, i + 1);
    }
  }

  lemma FieldShort(f: Field)
    requires Encodable(f)
    ensures |EncodeField(f)| <= 20 + |f.data|
  {
    VarintCapIs64Bits();
    VarintShort(f.number * 8 + f.wireType, 0);
    VarintShort(if f.wireType == BYTES then |f.data| else f.value, 0);
  }

  lemma DigestShort(r: DigestReference)
    requires EncodableDigest(r)
    ensures |EncodeDigest(r)| <= 104
  {
    HexIsLatin(r.hash);
    var fs := DigestFields(r);
    FieldShort(fs[0]);
    FieldShort(fs[1]);
    assert EncodeFields(fs[1..]) == EncodeField(fs[1]) + EncodeFields(fs[1..][1..]);
  }

  // ----- parsing the parts -----

  lemma DigestFieldParses(number: int, o: Option<DigestReference>)
    requires DigestFits(o)
    ensures ParseAll(DigestField(number, o), DigestOf) == Some(ToSeq(o))
  {
    if o.Some? {
      DigestRoundTrip(o.value);
      OneMessageParses(BytesField(number, EncodeDigest(o.value)), DigestOf);
    }
  }

  lemma OneMessageParses<T>(f: Field, parse: Bytes -> Option<T>)
    requires f.wireType == BYTES && parse(f.data).Some?
    ensures ParseAll([f], parse) == Some([parse(f.data).value])
  {
    ParseAllSnoc([], f, parse);
    var none: seq<T> := [];
    assert [] + [f] == [f] && none + [parse(f.data).value] == [parse(f.data).value];
  }

  /** Selecting from two sections. */
  lemma SelectTwo(a: seq<Field>, m: int, b: seq<Field>, n: int)
    requires m != n && (forall f :: f in a ==> f.number == m) && (forall f :: f in b ==> f.number == n)
    ensures Select(a + b, m) == a && Select(a + b, n) == b
  {
    SelectConcat(a, b, m);
    SelectConcat(a, b, n);
    SelectSection(a, m, m);
    SelectSection(a, m, n);
    SelectSection(b, n, n);
    SelectSection(b, n, m);
  }

  /** Parsing two sections of one kind. */
  lemma ParseTwo<T>(a: seq<Field>, m: int, b: seq<Field>, n: int, parse: Bytes -> Option<T>, xs: seq<T>, ys: seq<T>)
    requires m != n && (forall f :: f in a ==> f.number == m) && (forall f :: f in b ==> f.number == n)
    requires ParseAll(a, parse) == Some(xs) && ParseAll(b, parse) == Some(ys)
    ensures ParseAll(Select(a + b, m), parse) == Some(xs) && ParseAll(Select(a + b, n), parse) == Some(ys)
  {
    SelectTwo(a, m, b, n);
  }

  lemma FileReads(fs: seq<Field>, digest: DigestReference, contents: seq<Field>)
    requires DigestsAt(fs, 2) == Some([digest]) && Select(fs, 5) == contents && AllBytes(contents)
    ensures OutputFileFrom(fs) == Some(OutputFile(Some(digest), contents != []))
  {
    AtMostOneGiven(DigestsAt(fs, 2), Some(digest));
  }

  lemma FileFieldsRead(e: FileEntry)
    requires FileFits(e)
    ensures DigestsAt(DigestField(2, Some(e.digest)) + RawField(5, e.contents), 2) == Some([e.digest])
    ensures Select(DigestField(2, Some(e.digest)) + RawField(5, e.contents), 5) == RawField(5, e.contents)
  {
    SelectTwo(DigestField(2, Some(e.digest)), 2, RawField(5, e.contents), 5);
    DigestFieldParses(2, Some(e.digest));
  }

  lemma {:induction false} FileRoundTrip(e: FileEntry)
    requires FileFits(e)
    ensures OutputFileOf(EncodeFile(e)) == Some(OutputFile(Some(e.digest), e.contents.Some?))
  {
    var fs := DigestField(2, Some(e.digest)) + RawField(5, e.contents);
    WalkInvertsEncode(fs);
    FileFieldsRead(e);
    FileReads(fs, e.digest, RawField(5, e.contents));
  }

  lemma DirectoryReads(fs: seq<Field>, d: OutputDirectory)
    requires DigestsAt(fs, 3) == Some(ToSeq(d.tree)) && DigestsAt(fs, 5) == Some(ToSeq(d.root)) && (d.tree.Some? || d.root.Some?)
    ensures OutputDirectoryFrom(fs) == Some(d)
  {
    AtMostOneGiven(DigestsAt(fs, 3), d.tree);
    AtMostOneGiven(DigestsAt(fs, 5), d.root);
  }

  lemma DirectoryFieldsRead(d: OutputDirectory)
    requires DirectoryFits(d)
    ensures DigestsAt(DigestField(3, d.tree) + DigestField(5, d.root), 3) == Some(ToSeq(d.tree))
    ensures DigestsAt(DigestField(3, d.tree) + DigestField(5, d.root), 5) == Some(ToSeq(d.root))
  {
    DigestFieldParses(3, d.tree);
    DigestFieldParses(5, d.root);
    ParseTwo(DigestField(3, d.tree), 3, DigestField(5, d.root), 5, DigestOf, ToSeq(d.tree), ToSeq(d.root));
  }

  lemma DirectoryRoundTrip(d: OutputDirectory)
    requires DirectoryFits(d)
    ensures OutputDirectoryOf(EncodeDirectory(d)) == Some(d)
  {
    var fs := DigestField(3, d.tree) + DigestField(5, d.root);
    WalkInvertsEncode(fs);
    DirectoryFieldsRead(d);
    DirectoryReads(fs, d);
  }

  function ReadFiles(files: seq<FileEntry>): seq<OutputFile> {
    seq(|files|, i requires 0 <= i < |files| => OutputFile(Some(files[i].digest), files[i].contents.Some?))
  }

  lemma {:induction false} SectionEncodable<T>(xs: seq<T>, number: int, encode: T -> Bytes)
    requires 1 <= number <= 8 && forall x :: x in xs ==> |encode(x)| <= MAX_INT64
    ensures forall f :: f in Section(xs, number, encode) ==> f.number == number && Encodable(f)
  {
    if xs != [] {
      var init, last := xs[..|xs| - 1], xs[|xs| - 1];
      SectionEncodable(init, number, encode);
      assert last in xs && Encodable(BytesField(number, encode(last)));
    }
  }

  /** A section parses to what its elements parse to. */
  lemma {:induction false} SectionParses<T, U>(xs: seq<T>, ys: seq<U>, number: int, encode: T -> Bytes, parse: Bytes -> Option<U>)
    requires |xs| == |ys| && forall i :: 0 <= i < |xs| ==> parse(encode(xs[i])) == Some(ys[i])
    ensures ParseAll(Section(xs, number, encode), parse) == Some(ys)
  {
    if xs != [] {
      var k := |xs| - 1;
      SectionParses(xs[..k], ys[..k], number, encode, parse);
      ParseAllSnoc(Section(xs[..k], number, encode), BytesField(number, encode(xs[k])), parse);
      assert ys == ys[..k] + [ys[k]];
    }
  }

  lemma FileSectionParses(files: seq<FileEntry>)
    requires forall e :: e in files ==> FileFits(e)
    ensures ParseAll(FileSection(files), OutputFileOf) == Some(ReadFiles(files))
  {
    forall i | 0 <= i < |files| ensures OutputFileOf(EncodeFile(files[i])) == Some(ReadFiles(files)[i]) {
      FileRoundTrip(files[i]);
    }
    SectionParses(files, ReadFiles(files), 2, EncodeFile, OutputFileOf);
  }

  lemma DirectorySectionParses(dirs: seq<OutputDirectory>)
    requires forall d :: d in dirs ==> DirectoryFits(d)
    ensures ParseAll(DirectorySection(dirs), OutputDirectoryOf) == Some(dirs)
  {
    forall i | 0 <= i < |dirs| ensures OutputDirectoryOf(EncodeDirectory(dirs[i])) == Some(dirs[i]) {
      DirectoryRoundTrip(dirs[i]);
    }
    SectionParses(dirs, dirs, 3, EncodeDirectory, OutputDirectoryOf);
  }

  // ----- parsing the whole -----

  ghost predicate Numbered(fs: seq<Field>, number: int) { forall f :: f in fs ==> f.number == number }

  lemma SelectFour(a: seq<Field>, b: seq<Field>, c: seq<Field>, d: seq<Field>, n: int)
    requires Numbered(a, 5) && Numbered(b, 6) && Numbered(c, 7) && Numbered(d, 8)
    ensures Select(a + b + c + d, n) ==
      (if n == 5 then a else []) + (if n == 6 then b else []) + (if n == 7 then c else []) + (if n == 8 then d else [])
  {
    SelectConcat(a + b + c, d, n);
    SelectConcat(a + b, c, n);
    SelectConcat(a, b, n);
    SelectSection(a, 5, n);
    SelectSection(b, 6, n);
    SelectSection(c, 7, n);
    SelectSection(d, 8, n);
  }

  lemma SelectStreams(m: ActionMessage, n: int)
    ensures Select(StreamSection(m), n) ==
      (if n == 5 then RawField(5, m.stdoutRaw) else []) + (if n == 6 then DigestField(6, m.stdout) else [])
      + (if n == 7 then RawField(7, m.stderrRaw) else []) + (if n == 8 then DigestField(8, m.stderr) else [])
  {
    SelectFour(RawField(5, m.stdoutRaw), DigestField(6, m.stdout), RawField(7, m.stderrRaw), DigestField(8, m.stderr), n);
  }

  lemma SelectAction(m: ActionMessage, n: int)
    requires forall f :: f in FileSection(m.files) ==> f.number == 2
    requires forall f :: f in DirectorySection(m.dirs) ==> f.number == 3
    ensures Select(ActionFields(m), n) ==
      (if n == 2 then FileSection(m.files) else []) + (if n == 3 then DirectorySection(m.dirs) else [])
      + Select(StreamSection(m), n)
  {
    SelectConcat(FileSection(m.files) + DirectorySection(m.dirs), StreamSection(m), n);
    SelectConcat(FileSection(m.files), DirectorySection(m.dirs), n);
    SelectSection(FileSection(m.files), 2, n);
    SelectSection(DirectorySection(m.dirs), 3, n);
  }

  function SectionOf(m: ActionMessage, n: int): seq<Field> {
    if n == 2 then FileSection(m.files) else if n == 3 then DirectorySection(m.dirs)
    else if n == 5 then RawField(5, m.stdoutRaw) else if n == 6 then DigestField(6, m.stdout)
    else if n == 7 then RawField(7, m.stderrRaw) else if n == 8 then DigestField(8, m.stderr) else []
  }

  lemma SelectOne(m: ActionMessage, n: int)
    requires forall f :: f in FileSection(m.files) ==> f.number == 2
    requires forall f :: f in DirectorySection(m.dirs) ==> f.number == 3
    ensures Select(ActionFields(m), n) == SectionOf(m, n)
  {
    SelectAction(m, n);
    SelectStreams(m, n);
  }

  lemma SectionNumbers(m: ActionMessage)
    requires MessageFits(m)
    ensures forall f :: f in FileSection(m.files) ==> f.number == 2
    ensures forall f :: f in DirectorySection(m.dirs) ==> f.number == 3
  {
    SectionEncodable(m.files, 2, EncodeFile);
    SectionEncodable(m.dirs, 3, EncodeDirectory);
  }

  lemma ActionFieldsEncodable(m: ActionMessage)
    requires MessageFits(m)
    ensures forall f :: f in ActionFields(m) ==> Encodable(f)
  {
    SectionEncodable(m.files, 2, EncodeFile);
    SectionEncodable(m.dirs, 3, EncodeDirectory);
    forall f | f in StreamSection(m) ensures Encodable(f) {
    }
  }

  /** The blobs a client means: digests of files and streams that are not inlined. */
  function MeantBlobs(m: ActionMessage): seq<DigestReference> {
    FileDigests(ReadFiles(m.files))
    + (if m.stdoutRaw.Some? then [] else ToSeq(m.stdout)) + (if m.stderrRaw.Some? then [] else ToSeq(m.stderr))
  }

  lemma FilesOfAction(m: ActionMessage)
    requires MessageFits(m)
    ensures ParseAll(Select(ActionFields(m), 2), OutputFileOf) == Some(ReadFiles(m.files))
  {
    SectionNumbers(m);
    SelectOne(m, 2);
    FileSectionParses(m.files);
  }

  lemma DirectoriesOfAction(m: ActionMessage)
    requires MessageFits(m)
    ensures ParseAll(Select(ActionFields(m), 3), OutputDirectoryOf) == Some(m.dirs)
  {
    SectionNumbers(m);
    SelectOne(m, 3);
    DirectorySectionParses(m.dirs);
  }

  lemma StdoutRawOfAction(m: ActionMessage)
    requires MessageFits(m)
    ensures Select(ActionFields(m), 5) == RawField(5, m.stdoutRaw)
  {
    SectionNumbers(m);
    SelectOne(m, 5);
  }

  lemma StderrRawOfAction(m: ActionMessage)
    requires MessageFits(m)
    ensures Select(ActionFields(m), 7) == RawField(7, m.stderrRaw)
  {
    SectionNumbers(m);
    SelectOne(m, 7);
  }

  lemma SelectDigestStreams(m: ActionMessage)
    requires MessageFits(m)
    ensures Select(ActionFields(m), 6) == DigestField(6, m.stdout) && Select(ActionFields(m), 8) == DigestField(8, m.stderr)
  {
    SectionNumbers(m);
    assert Select(ActionFields(m), 6) == DigestField(6, m.stdout) by { SelectOne(m, 6); }
    assert Select(ActionFields(m), 8) == DigestField(8, m.stderr) by { SelectOne(m, 8); }
  }

  lemma DigestStreamsOfAction(m: ActionMessage)
    requires MessageFits(m)
    ensures DigestsAt(ActionFields(m), 6) == Some(ToSeq(m.stdout))
    ensures DigestsAt(ActionFields(m), 8) == Some(ToSeq(m.stderr))
  {
    SelectDigestStreams(m);
    DigestFieldParses(6, m.stdout);
    DigestFieldParses(8, m.stderr);
  }

  lemma RawStreamParts(m: ActionMessage)
    ensures AllBytes(RawField(5, m.stdoutRaw)) && AllBytes(RawField(7, m.stderrRaw))
    ensures StreamDigest(ToSeq(m.stdout), RawField(5, m.stdoutRaw)) == if m.stdoutRaw.Some? then [] else ToSeq(m.stdout)
    ensures StreamDigest(ToSeq(m.stderr), RawField(7, m.stderrRaw)) == if m.stderrRaw.Some? then [] else ToSeq(m.stderr)
  {
  }

  lemma RawOfAction(m: ActionMessage)
    requires MessageFits(m)
    ensures RawFrom(ActionFields(m)) == Some(RawResult(ReadFiles(m.files), m.dirs, ToSeq(m.stdout), ToSeq(m.stderr)))
    ensures BlobDigests(RawFrom(ActionFields(m)).value, ActionFields(m)) == MeantBlobs(m)
  {
    FilesOfAction(m);
    DirectoriesOfAction(m);
    StdoutRawOfAction(m);
    StderrRawOfAction(m);
    DigestStreamsOfAction(m);
    RawStreamParts(m);
  }

  /** Parsing inverts the ActionResult encoder on every message with consistent sizes, and rejects the others. */
  lemma ActionResultRoundTrip(m: ActionMessage)
    requires MessageFits(m)
    ensures var trees, roots := TreeDigests(m.dirs), RootDigests(m.dirs);
      ActionResultOf(EncodeAction(m)) ==
        if Consistent(MeantBlobs(m)) && Consistent(trees) && Consistent(roots)
        then Some(ActionReferences(FirstPerHash(MeantBlobs(m)), FirstPerHash(trees), FirstPerHash(roots))) else None
  {
    ActionFieldsEncodable(m);
    WalkInvertsEncode(ActionFields(m));
    RawOfAction(m);
  }
}
