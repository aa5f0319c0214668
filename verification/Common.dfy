/** Vocabulary shared by every component: byte strings, digests and digest references. */
module Common {
  type byte = x: int | 0 <= x < 256

  type Bytes = seq<byte>

  datatype Option<+T> = None | Some(value: T)

  /** A REAPI digest as the server handles it: a hex hash and a declared size. */
  datatype DigestReference = DigestReference(hash: string, size: int)

  const EMPTY_SHA256 := "e3b0c44298fc1c14" + "9afbf4c8996fb924" + "27ae41e4649b934c" + "a495991b7852b855"

  predicate IsLowerHex(c: char) {
    '0' <= c <= '9' || 'a' <= c <= 'f'
  }

  /** The pattern ^[a-f0-9]{64}$ . */
  predicate DigestPattern(s: string) {
    |s| == 64 && forall i :: 0 <= i < |s| ==> IsLowerHex(s[i])
  }

  predicate LowerHex(s: string) { forall i :: 0 <= i < |s| ==> IsLowerHex(s[i]) }

  lemma LowerHexConcat(a: string, b: string)
    requires LowerHex(a) && LowerHex(b)
    ensures LowerHex(a + b)
  {
  }

  lemma EmptyHashIsDigest()
    ensures DigestPattern(EMPTY_SHA256) && EMPTY_SHA256[0] == 'e'
  {
    var a, b, c, d := "e3b0c44298fc1c14", "9afbf4c8996fb924", "27ae41e4649b934c", "a495991b7852b855";
    LowerHexConcat(a, b);
    LowerHexConcat(a + b, c);
    LowerHexConcat(a + b + c, d);
  }

  /** The zero-byte blob, which clients never upload. */
  predicate IsImplicitEmpty(r: DigestReference) {
    r.hash == EMPTY_SHA256 && r.size == 0
  }

  ghost predicate NoRepeats<T>(s: seq<T>) {
    forall i, j :: 0 <= i < j < |s| ==> s[i] != s[j]
  }

  /** The hashes of the references that are not the implicit empty blob. */
  ghost function RealHashes(refs: seq<DigestReference>): set<string> {
    set r | r in refs && !IsImplicitEmpty(r) :: r.hash
  }

  /** A write to an immutable key: an object that is already there stays. */
  function PutIfAbsent(entries: map<string, Bytes>, key: string, data: Bytes): map<string, Bytes> {
    if key in entries then entries else entries[key := data]
  }

  lemma {:induction false} SubsetCardinality<T>(a: set<T>, b: set<T>)
    requires a <= b
    ensures |a| <= |b|
    decreases a
  {
    if a != {} {
      var x :| x in a;
      SubsetCardinality(a - {x}, b - {x});
    }
  }

  lemma FirstMember<T>(s: seq<T>)
    ensures s != [] ==> s[0] in s
  {
  }
}
