/** The REAPI messages the server reads: Digest, Directory, ActionResult and their parts. */
module Messages {
  import opened Common
  import opened Wire

  function ToText(b: Bytes): string { seq(|b|, i requires 0 <= i < |b| => b[i] as char) }

  predicate Latin(s: string) { forall i :: 0 <= i < |s| ==> s[i] as int < 256 }

  function FromText(s: string): Bytes
    requires Latin(s)
  {
    seq(|s|, i requires 0 <= i < |s| => s[i] as int)
  }

  // ----- lists of sub-messages -----

  /** Every field is a message that parses. */
  function ParseAll<T>(fields: seq<Field>, parse: Bytes -> Option<T>): (r: Option<seq<T>>)
    ensures r.Some? ==> |r.value| == |fields|
  {
    if fields == [] then Some([])
    else
      var last := fields[|fields| - 1];
      match ParseAll(fields[..|fields| - 1], parse)
      case None => None
      case Some(xs) =>
        if last.wireType != BYTES then None
        else match parse(last.data) case None => None case Some(x) => Some(xs + [x])
  }

  lemma ParseAllSnoc<T>(fields: seq<Field>, f: Field, parse: Bytes -> Option<T>)
    ensures ParseAll(fields + [f], parse) ==
      if ParseAll(fields, parse).Some? && f.wireType == BYTES && parse(f.data).Some?
      then Some(ParseAll(fields, parse).value + [parse(f.data).value]) else None
  {
    assert (fields + [f])[..|fields|] == fields;
  }

  lemma {:induction false} ParseAllConcat<T>(a: seq<Field>, b: seq<Field>, parse: Bytes -> Option<T>)
    ensures ParseAll(a + b, parse) ==
      if ParseAll(a, parse).Some? && ParseAll(b, parse).Some?
      then Some(ParseAll(a, parse).value + ParseAll(b, parse).value) else None
  {
    if b == [] {
      assert a + b == a;
      if ParseAll(a, parse).Some? { assert ParseAll(a, parse).value + [] == ParseAll(a, parse).value; }
    } else {
      var init, last := b[..|b| - 1], b[|b| - 1];
      ParseAllConcat(a, init, parse);
      assert a + b == (a + init) + [last];
      ParseAllSnoc(a + init, last, parse);
      if ParseAll(a, parse).Some? && ParseAll(b, parse).Some? {
        var x := parse(last.data).value;
        assert ParseAll(a, parse).value + (ParseAll(init, parse).value + [x])
            == (ParseAll(a, parse).value + ParseAll(init, parse).value) + [x];
      }
    }
  }

  lemma {:induction false} ParseAllEach<T>(fields: seq<Field>, parse: Bytes -> Option<T>, i: int)
    requires ParseAll(fields, parse).Some? && 0 <= i < |fields|
    ensures fields[i].wireType == BYTES && parse(fields[i].data) == Some(ParseAll(fields, parse).value[i])
  {
    if i < |fields| - 1 { ParseAllEach(fields[..|fields| - 1], parse, i); }
  }

  ghost predicate AllBytes(fields: seq<Field>) { forall f :: f in fields ==> f.wireType == BYTES }

  /** Going one field further in the list of sub-messages with one number. */
  lemma ParseUpTo<T>(fields: seq<Field>, i: nat, number: int, parse: Bytes -> Option<T>)
    requires i < |fields|
    ensures fields[i].number != number ==> Select(fields[..i + 1], number) == Select(fields[..i], number)
    ensures fields[i].number == number ==>
      ParseAll(Select(fields[..i + 1], number), parse) ==
        if ParseAll(Select(fields[..i], number), parse).Some? && fields[i].wireType == BYTES && parse(fields[i].data).Some?
        then Some(ParseAll(Select(fields[..i], number), parse).value + [parse(fields[i].data).value]) else None
    ensures ParseAll(Select(fields[..i + 1], number), parse).None? ==> ParseAll(Select(fields, number), parse).None?
    ensures |Select(fields[..i + 1], number)| <= |Select(fields, number)|
  {
    SelectUpTo(fields, i, number);
    ParseAllSnoc(Select(fields[..i], number), fields[i], parse);
    var some, all := Select(fields[..i + 1], number), Select(fields, number);
    assert all == some + all[|some|..];
    ParseAllConcat(some, all[|some|..], parse);
  }

  /** Going one field further in the list of bytes fields with one number. */
  lemma BytesUpTo(fields: seq<Field>, i: nat, number: int)
    requires i < |fields|
    ensures fields[i].number != number ==> Select(fields[..i + 1], number) == Select(fields[..i], number)
    ensures fields[i].number == number ==> Select(fields[..i + 1], number) != []
    ensures fields[i].number == number ==>
      (AllBytes(Select(fields[..i + 1], number)) <==> AllBytes(Select(fields[..i], number)) && fields[i].wireType == BYTES)
    ensures !AllBytes(Select(fields[..i + 1], number)) ==> !AllBytes(Select(fields, number))
  {
    SelectUpTo(fields, i, number);
    var some, all := Select(fields[..i + 1], number), Select(fields, number);
    assert forall f :: f in some ==> f in all;
    if fields[i].number == number { assert fields[i] in some; }
  }

  // ----- Digest -----

  ghost predicate DigestFieldsOk(hashes: seq<Field>, sizes: seq<Field>) {
    && |hashes| == 1 && hashes[0].wireType == BYTES && DigestPattern(ToText(hashes[0].data))
    && |sizes| <= 1 && forall f :: f in sizes ==> f.wireType == VARINT && f.value <= MAX_INT64
  }

  /** A digest message: one hash of 64 lower-case hex digits and at most one size that fits int64. */
  ghost function DigestFrom(fs: seq<Field>): Option<DigestReference> {
    var hashes, sizes := Select(fs, 1), Select(fs, 2);
    if DigestFieldsOk(hashes, sizes)
    then Some(DigestReference(ToText(hashes[0].data), if sizes == [] then 0 else sizes[0].value)) else None
  }

  ghost function DigestOf(data: Bytes): Option<DigestReference> {
    match Walk(data) case None => None case Some(fs) => DigestFrom(fs)
  }

  method ParseDigest(data: Bytes) returns (r: Option<DigestReference>)
    ensures r == DigestOf(data)
  {
    var walk := VisitWireFields(data);
    if walk.None? { return None; }
    r := DigestFromFields(walk.value);
  }

  /** A field that repeats the hash or the size, or has the wrong form, spoils the message. */
  lemma DigestFieldRejected(fs: seq<Field>, i: nat)
    requires i < |fs|
    requires (fs[i].number == 1 && (fs[i].wireType != BYTES || Select(fs[..i], 1) != []))
      || (fs[i].number == 2 && (fs[i].wireType != VARINT || Select(fs[..i], 2) != [] || fs[i].value > MAX_INT64))
    ensures DigestFrom(fs).None?
  {
    var number := fs[i].number;
    SelectUpTo(fs, i, number);
    var k := |Select(fs[..i], number)|;
    assert Select(fs, number)[k] == fs[i];
  }

  /** The hash field seen so far, if any. */
  ghost predicate HashTaken(hashes: seq<Field>, hash: Option<string>) {
    match hash
    case None => hashes == []
    case Some(h) => |hashes| == 1 && hashes[0].wireType == BYTES && h == ToText(hashes[0].data)
  }

  ghost predicate SizeTaken(sizes: seq<Field>, size: Option<int>) {
    match size
    case None => sizes == []
    case Some(n) => |sizes| == 1 && sizes[0].wireType == VARINT && n == sizes[0].value && n <= MAX_INT64
  }

  method DigestFromFields(fs: seq<Field>) returns (r: Option<DigestReference>)
    ensures r == DigestFrom(fs)
  {
    var hash: Option<string>, size: Option<int> := None, None;
    ghost var hashes: seq<Field>, sizes: seq<Field> := [], [];
    for i := 0 to |fs|
      invariant hashes == Select(fs[..i], 1) && HashTaken(hashes, hash)
      invariant sizes == Select(fs[..i], 2) && SizeTaken(sizes, size)
    {
      var f := fs[i];
      SelectUpTo(fs, i, 1);
      SelectUpTo(fs, i, 2);
      if f.number == 1 {
        if f.wireType != BYTES || hash.Some? {
          DigestFieldRejected(fs, i);
          return None;
        }
        hash, hashes := Some(ToText(f.data)), hashes + [f];
      } else if f.number == 2 {
        if f.wireType != VARINT || size.Some? || f.value > MAX_INT64 {
          DigestFieldRejected(fs, i);
          return None;
        }
        size, sizes := Some(f.value), sizes + [f];
      }
    }
    assert fs[..|fs|] == fs;
    if hash.None? || !DigestPattern(hash.value) {
      return None;
    }
    r := Some(DigestReference(hash.value, if size.Some? then size.value else 0));
  }

  // ----- FileNode and DirectoryNode -----

  ghost function DigestsAt(fields: seq<Field>, number: int): Option<seq<DigestReference>> {
    ParseAll(Select(fields, number), DigestOf)
  }

  /** A node message carries exactly one digest, in field 2. */
  ghost function NodeDigestFrom(fs: seq<Field>): Option<DigestReference> {
    var ds := DigestsAt(fs, 2);
    if ds.Some? && |ds.value| == 1 then Some(ds.value[0]) else None
  }

  ghost function NodeDigestOf(data: Bytes): Option<DigestReference> {
    match Walk(data) case None => None case Some(fs) => NodeDigestFrom(fs)
  }

  function ToSeq<T>(o: Option<T>): seq<T> { match o case None => [] case Some(x) => [x] }

  /** A sub-message that must parse as a digest. */
  method ParseDigestField(f: Field) returns (r: Option<DigestReference>)
    ensures r == if f.wireType == BYTES then DigestOf(f.data) else None
  {
    if f.wireType != BYTES { return None; }
    r := ParseDigest(f.data);
  }

  method ParseNodeDigest(data: Bytes) returns (r: Option<DigestReference>)
    ensures r == NodeDigestOf(data)
  {
    var walk := VisitWireFields(data);
    if walk.None? { return None; }
    r := NodeDigestFromFields(walk.value);
  }

  method NodeDigestFromFields(fs: seq<Field>) returns (r: Option<DigestReference>)
    ensures r == NodeDigestFrom(fs)
  {
    r := None;
    for i := 0 to |fs|
      invariant DigestsAt(fs[..i], 2) == Some(ToSeq(r))
    {
      ParseUpTo(fs, i, 2, DigestOf);
      if fs[i].number == 2 {
        var reference := ParseDigestField(fs[i]);
        if reference.None? || r.Some? {
          return None;
        }
        r := reference;
        assert [] + [reference.value] == ToSeq(r);
      }
    }
    assert fs[..|fs|] == fs;
  }

  // ----- Directory -----

  datatype Directory = Directory(files: seq<DigestReference>, directories: seq<DigestReference>)

  /** A directory message: the digests of its file nodes and of its directory nodes, in order. */
  ghost function DirectoryFrom(fs: seq<Field>): Option<Directory> {
    var files, directories := ParseAll(Select(fs, 1), NodeDigestOf), ParseAll(Select(fs, 2), NodeDigestOf);
    if files.Some? && directories.Some? then Some(Directory(files.value, directories.value)) else None
  }

  ghost function DirectoryOf(data: Bytes): Option<Directory> {
    match Walk(data) case None => None case Some(fs) => DirectoryFrom(fs)
  }

  method ParseDirectory(data: Bytes) returns (r: Option<Directory>)
    ensures r == DirectoryOf(data)
  {
    var walk := VisitWireFields(data);
    if walk.None? { return None; }
    var fs := walk.value;
    var files, directories: seq<DigestReference> := [], [];
    for i := 0 to |fs|
      invariant ParseAll(Select(fs[..i], 1), NodeDigestOf) == Some(files)
      invariant ParseAll(Select(fs[..i], 2), NodeDigestOf) == Some(directories)
    {
      ParseUpTo(fs, i, 1, NodeDigestOf);
      ParseUpTo(fs, i, 2, NodeDigestOf);
      var f := fs[i];
      if f.number == 1 || f.number == 2 {
        if f.wireType != BYTES { return None; }
        var reference := ParseNodeDigest(f.data);
        if reference.None? { return None; }
        if f.number == 1 {
          files := files + [reference.value];
        } else {
          directories := directories + [reference.value];
        }
      }
    }
    assert fs[..|fs|] == fs;
    r := Some(Directory(files, directories));
  }
}
