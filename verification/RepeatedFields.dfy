/** Which messages the parsers accept when a field is missing or repeated. */
module RepeatedFields {
  import opened Common
  import opened References
  import opened Wire
  import opened Messages
  import opened ActionResults
  import opened ActionEncoding

  function Same(b: Bytes): Bytes { b }

  ghost predicate Short(bs: seq<Bytes>) { forall b :: b in bs ==> |b| <= MAX_INT64 }

  ghost predicate EncodableDigests(ds: seq<DigestReference>) { forall d :: d in ds ==> EncodableDigest(d) }

  lemma DigestsRead(ds: seq<DigestReference>, number: int)
    requires EncodableDigests(ds) && 1 <= number <= 8
    ensures ParseAll(Section(ds, number, EncodeDigest), DigestOf) == Some(ds)
    ensures forall f :: f in Section(ds, number, EncodeDigest) ==> f.number == number && Encodable(f)
  {
    forall i | 0 <= i < |ds| ensures DigestOf(EncodeDigest(ds[i])) == Some(ds[i]) { DigestRoundTrip(ds[i]); }
    SectionParses(ds, ds, number, EncodeDigest, DigestOf);
    forall d | d in ds ensures |EncodeDigest(d)| <= MAX_INT64 { DigestShort(d); }
    SectionEncodable(ds, number, EncodeDigest);
  }

  lemma {:induction false} SectionIs<T>(xs: seq<T>, number: int, encode: T -> Bytes)
    ensures |Section(xs, number, encode)| == |xs|
    ensures forall i :: 0 <= i < |xs| ==> Section(xs, number, encode)[i] == BytesField(number, encode(xs[i]))
  {
    if xs != [] { SectionIs(xs[..|xs| - 1], number, encode); }
  }

  ghost predicate SectionOk(a: seq<Field>, number: int) { forall f :: f in a ==> f.number == number && Encodable(f) }

  /** Walking two encoded sections and selecting each. */
  lemma WalkTwo(a: seq<Field>, m: int, b: seq<Field>, n: int)
    requires m != n && SectionOk(a, m) && SectionOk(b, n)
    ensures Walk(EncodeFields(a + b)) == Some(a + b) && Select(a + b, m) == a && Select(a + b, n) == b
  {
    WalkInvertsEncode(a + b);
    SelectTwo(a, m, b, n);
  }

  lemma DigestSection(ds: seq<DigestReference>, number: int)
    requires EncodableDigests(ds) && 1 <= number <= 8
    ensures SectionOk(Section(ds, number, EncodeDigest), number)
    ensures ParseAll(Section(ds, number, EncodeDigest), DigestOf) == Some(ds)
  {
    DigestsRead(ds, number);
  }

  lemma RawSection(bs: seq<Bytes>, number: int)
    requires Short(bs) && 1 <= number <= 8
    ensures SectionOk(Section(bs, number, Same), number) && AllBytes(Section(bs, number, Same))
    ensures |Section(bs, number, Same)| == |bs|
  {
    SectionEncodable(bs, number, Same);
    SectionIs(bs, number, Same);
  }

  // ----- digests -----

  function SizeFields(sizes: seq<nat>): seq<Field> { seq(|sizes|, i requires 0 <= i < |sizes| => Field(2, VARINT, [], sizes[i])) }

  function EncodeDigestParts(hashes: seq<Bytes>, sizes: seq<nat>): Bytes {
    EncodeFields(Section(hashes, 1, Same) + SizeFields(sizes))
  }

  /**
   * A digest message is accepted exactly if it holds one hash of 64 lower-case hex digits and at most one size, which
   * fits 63 bits; a size that is left out is zero.
   */
  lemma DigestAccepted(hashes: seq<Bytes>, sizes: seq<nat>)
    requires Short(hashes) && forall n :: n in sizes ==> n < TWO_64
    ensures DigestOf(EncodeDigestParts(hashes, sizes)) ==
      if |hashes| == 1 && DigestPattern(ToText(hashes[0])) && |sizes| <= 1 && (sizes != [] ==> sizes[0] <= 0x7FFF_FFFF_FFFF_FFFF)
      then Some(DigestReference(ToText(hashes[0]), if sizes == [] then 0 else sizes[0])) else None
  {
    var a, b := Section(hashes, 1, Same), SizeFields(sizes);
    RawSection(hashes, 1);
    SectionIs(hashes, 1, Same);
    forall i | 0 <= i < |sizes| ensures Encodable(b[i]) { assert sizes[i] in sizes; }
    WalkTwo(a, 1, b, 2);
    DigestFieldsAccepted(a + b, hashes, sizes);
  }

  lemma DigestFieldsAccepted(fs: seq<Field>, hashes: seq<Bytes>, sizes: seq<nat>)
    requires |Select(fs, 1)| == |hashes| && Select(fs, 2) == SizeFields(sizes)
    requires forall i :: 0 <= i < |hashes| ==> Select(fs, 1)[i] == BytesField(1, hashes[i])
    ensures DigestFrom(fs) ==
      if |hashes| == 1 && DigestPattern(ToText(hashes[0])) && |sizes| <= 1 && (sizes != [] ==> sizes[0] <= 0x7FFF_FFFF_FFFF_FFFF)
      then Some(DigestReference(ToText(hashes[0]), if sizes == [] then 0 else sizes[0])) else None
  {
    var all := Select(fs, 2);
    if |sizes| == 1 { assert all[0] == Field(2, VARINT, [], sizes[0]) && all == [all[0]]; }
  }

  // ----- output files and directories -----

  /** An output file is accepted exactly with at most one digest, and with contents if it has none. */
  lemma FileAccepted(ds: seq<DigestReference>, contents: seq<Bytes>)
    requires EncodableDigests(ds) && Short(contents)
    ensures OutputFileOf(EncodeFields(Section(ds, 2, EncodeDigest) + Section(contents, 5, Same))) ==
      if |ds| == 1 then Some(OutputFile(Some(ds[0]), contents != []))
      else if |ds| == 0 && contents != [] then Some(OutputFile(None, true)) else None
  {
    DigestSection(ds, 2);
    RawSection(contents, 5);
    WalkTwo(Section(ds, 2, EncodeDigest), 2, Section(contents, 5, Same), 5);
    FileFieldsAccepted(Section(ds, 2, EncodeDigest) + Section(contents, 5, Same), ds, |contents|);
  }

  lemma FileFieldsAccepted(fs: seq<Field>, ds: seq<DigestReference>, contents: nat)
    requires DigestsAt(fs, 2) == Some(ds) && |Select(fs, 5)| == contents && AllBytes(Select(fs, 5))
    ensures OutputFileFrom(fs) ==
      if |ds| == 1 then Some(OutputFile(Some(ds[0]), contents != 0))
      else if |ds| == 0 && contents != 0 then Some(OutputFile(None, true)) else None
  {
  }

  /** An output directory is accepted exactly with at most one tree and at most one root, and at least one of the two. */
  lemma DirectoryAccepted(trees: seq<DigestReference>, roots: seq<DigestReference>)
    requires EncodableDigests(trees) && EncodableDigests(roots)
    ensures OutputDirectoryOf(EncodeFields(Section(trees, 3, EncodeDigest) + Section(roots, 5, EncodeDigest))) ==
      if |trees| <= 1 && |roots| <= 1 && |trees| + |roots| >= 1
      then Some(OutputDirectory(if trees == [] then None else Some(trees[0]), if roots == [] then None else Some(roots[0])))
      else None
  {
    DigestSection(trees, 3);
    DigestSection(roots, 5);
    WalkTwo(Section(trees, 3, EncodeDigest), 3, Section(roots, 5, EncodeDigest), 5);
    DirectoryFieldsAccepted(Section(trees, 3, EncodeDigest) + Section(roots, 5, EncodeDigest), trees, roots);
  }

  lemma DirectoryFieldsAccepted(fs: seq<Field>, trees: seq<DigestReference>, roots: seq<DigestReference>)
    requires DigestsAt(fs, 3) == Some(trees) && DigestsAt(fs, 5) == Some(roots)
    ensures OutputDirectoryFrom(fs) ==
      if |trees| <= 1 && |roots| <= 1 && |trees| + |roots| >= 1
      then Some(OutputDirectory(if trees == [] then None else Some(trees[0]), if roots == [] then None else Some(roots[0])))
      else None
  {
  }

  // ----- output streams -----

  /** The blob of a stream: the last digest given for it, unless the stream is inlined. */
  function StreamBlob(raw: seq<Bytes>, ds: seq<DigestReference>): seq<DigestReference> {
    if raw == [] && ds != [] then [ds[|ds| - 1]] else []
  }

  function StreamFields(outRaw: seq<Bytes>, out: seq<DigestReference>, errRaw: seq<Bytes>, err: seq<DigestReference>): seq<Field> {
    Section(outRaw, 5, Same) + Section(out, 6, EncodeDigest) + Section(errRaw, 7, Same) + Section(err, 8, EncodeDigest)
  }

  lemma StreamSections(outRaw: seq<Bytes>, out: seq<DigestReference>, errRaw: seq<Bytes>, err: seq<DigestReference>)
    requires Short(outRaw) && Short(errRaw) && EncodableDigests(out) && EncodableDigests(err)
    ensures var fs := StreamFields(outRaw, out, errRaw, err);
      && (forall f :: f in fs ==> Encodable(f))
      && Select(fs, 2) == [] && Select(fs, 3) == []
      && Select(fs, 5) == Section(outRaw, 5, Same) && Select(fs, 6) == Section(out, 6, EncodeDigest)
      && Select(fs, 7) == Section(errRaw, 7, Same) && Select(fs, 8) == Section(err, 8, EncodeDigest)
  {
    RawSection(outRaw, 5);
    RawSection(errRaw, 7);
    DigestSection(out, 6);
    DigestSection(err, 8);
    FourSections(Section(outRaw, 5, Same), Section(out, 6, EncodeDigest), Section(errRaw, 7, Same), Section(err, 8, EncodeDigest));
  }

  lemma FourSections(a: seq<Field>, b: seq<Field>, c: seq<Field>, d: seq<Field>)
    requires SectionOk(a, 5) && SectionOk(b, 6) && SectionOk(c, 7) && SectionOk(d, 8)
    ensures forall f :: f in a + b + c + d ==> Encodable(f)
    ensures forall n :: Select(a + b + c + d, n) == SectionAt(a, b, c, d, n)
  {
    forall n ensures Select(a + b + c + d, n) == SectionAt(a, b, c, d, n) { SelectFour(a, b, c, d, n); }
  }

  function SectionAt(a: seq<Field>, b: seq<Field>, c: seq<Field>, d: seq<Field>, n: int): seq<Field> {
    if n == 5 then a else if n == 6 then b else if n == 7 then c else if n == 8 then d else []
  }

  /** Of several digests for a stream the last one counts, and none if the stream is inlined. */
  lemma StreamsAccepted(outRaw: seq<Bytes>, out: seq<DigestReference>, errRaw: seq<Bytes>, err: seq<DigestReference>)
    requires Short(outRaw) && Short(errRaw) && EncodableDigests(out) && EncodableDigests(err)
    ensures var blobs := StreamBlob(outRaw, out) + StreamBlob(errRaw, err);
      ActionResultOf(EncodeFields(StreamFields(outRaw, out, errRaw, err))) ==
        if Consistent(blobs) then Some(ActionReferences(FirstPerHash(blobs), [], [])) else None
  {
    var fs := StreamFields(outRaw, out, errRaw, err);
    StreamSections(outRaw, out, errRaw, err);
    WalkInvertsEncode(fs);
    DigestSection(out, 6);
    DigestSection(err, 8);
    RawSection(outRaw, 5);
    RawSection(errRaw, 7);
    StreamsRaw(fs, outRaw, out, errRaw, err);
  }

  lemma StreamsRaw(fs: seq<Field>, outRaw: seq<Bytes>, out: seq<DigestReference>, errRaw: seq<Bytes>, err: seq<DigestReference>)
    requires Select(fs, 2) == [] && Select(fs, 3) == []
    requires |Select(fs, 5)| == |outRaw| && AllBytes(Select(fs, 5)) && DigestsAt(fs, 6) == Some(out)
    requires |Select(fs, 7)| == |errRaw| && AllBytes(Select(fs, 7)) && DigestsAt(fs, 8) == Some(err)
    ensures var blobs := StreamBlob(outRaw, out) + StreamBlob(errRaw, err);
      ActionResultFrom(fs) == if Consistent(blobs) then Some(ActionReferences(FirstPerHash(blobs), [], [])) else None
  {
    assert RawFrom(fs) == Some(RawResult([], [], out, err));
    assert BlobDigests(RawResult([], [], out, err), fs) == StreamBlob(outRaw, out) + StreamBlob(errRaw, err);
  }
}
