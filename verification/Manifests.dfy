/** The library functions the packed store builds on, as parameters of the model. */
module Environment {
  import opened Common

  /** The IPLD data model, as far as manifests use it. */
  datatype Node =
    | IntNode(i: int)
    | StringNode(s: string)
    | ListNode(items: seq<Node>)
    | MapNode(fields: map<string, Node>)

  /** One block of a CARv2 pack. */
  datatype Block = Block(cid: string, data: Bytes)

  /** No CID is given two contents. */
  ghost predicate OneContentPerCid(blocks: seq<Block>) {
    forall b: Block, c: Block :: b in blocks && c in blocks && b.cid == c.cid ==> b == c
  }

  /** SHA-256, CIDs, the DAG-CBOR codec, the CARv2 format and the server configuration. */
  datatype Env = Env(
    sha: Bytes -> string,
    rawCid: string -> string,
    dagCid: string -> string,
    validCid: string -> bool,
    encode: Node -> Bytes,
    decode: Bytes -> Option<Node>,
    car: seq<Block> -> Bytes,
    openCar: Bytes -> Option<seq<Block>>,
    prefix: string,
    targetSize: int,
    maxBlobSize: int,
    handled: Bytes -> bool)
  {
    /** The CID of a raw block. */
    function CidOf(data: Bytes): string { rawCid(sha(data)) }

    function PackKey(id: string): string { KeyFor(prefix, id) }

    function ManifestKey(id: string): string { prefix + "-car-manifest-v1-" + id }

    /**
     * What the libraries promise. `handled` holds of the byte strings that occur in a run:
     * SHA-256 has no collision among those, the codec decodes those it encoded, and a pack file is never empty,
     * opens to the set of blocks it was built from (a repeated block may be stored once) and is at least as long
     * as each of them.
     */
    ghost predicate Good() {
      && (forall b {:trigger sha(b)} :: DigestPattern(sha(b)))
      && (forall a, b {:trigger handled(a), handled(b)} :: handled(a) && handled(b) && sha(a) == sha(b) ==> a == b)
      && (forall d, e {:trigger rawCid(d), rawCid(e)} :: rawCid(d) == rawCid(e) ==> d == e)
      && (forall d, e {:trigger dagCid(d), dagCid(e)} :: dagCid(d) == dagCid(e) ==> d == e)
      && (forall d {:trigger rawCid(d)} :: DigestPattern(d) ==> validCid(rawCid(d)))
      && (forall d {:trigger dagCid(d)} :: DigestPattern(d) ==> validCid(dagCid(d)) && dagCid(d) != "")
      && (forall n {:trigger encode(n)} :: handled(encode(n)) ==> decode(encode(n)) == Some(n))
      && (forall bs: seq<Block> {:trigger car(bs)} :: handled(car(bs)) && OneContentPerCid(bs) ==>
           |car(bs)| > 0 && openCar(car(bs)).Some? && forall b: Block :: b in openCar(car(bs)).value <==> b in bs)
      && (forall bytes {:trigger openCar(bytes)} :: handled(bytes) && openCar(bytes).Some? ==>
           forall b: Block :: b in openCar(bytes).value ==> |b.data| <= |bytes|)
      && targetSize > 0
    }
  }

  // ----- the promises can be kept -----

  function Hex(c: char): string { seq(64, _ => c) }

  lemma HexDistinct(c: char, e: char)
    requires IsLowerHex(c)
    ensures DigestPattern(Hex(c)) && (Hex(c) == Hex(e) ==> c == e)
  {
    assert Hex(c)[0] == c && Hex(e)[0] == e;
  }

  /**
   * The byte strings of a small environment: a blob, the pack of it, a manifest and the node it encodes, and a string
   * that does not occur.
   */
  datatype Sample = Sample(blob: Bytes, pack: Bytes, manifest: Bytes, other: Bytes, node: Node, maxBlobSize: int)
  {
    ghost predicate Distinct() {
      && [] != pack && [] != manifest && [] != other && blob != pack && blob != manifest && blob != other
      && pack != manifest && pack != other && manifest != other && |blob| <= |pack|
    }

    predicate Occurs(b: Bytes) { b == [] || b == blob || b == pack || b == manifest }

    function Sha(b: Bytes): string {
      if b == [] then EMPTY_SHA256
      else Hex(if b == blob then 'a' else if b == pack then 'b' else if b == manifest then 'c' else 'd')
    }

    function Blocks(): seq<Block> { [Block(Sha(blob), blob)] }

    /** An environment in which the blob, the pack of it, the encoded node and the empty blob occur. */
    function Environment(): Env {
      Env(b => Sha(b),
          d => d,
          d => "m" + d,
          _ => true,
          n => if n == node then manifest else other,
          b => if b == manifest then Some(node) else None,
          bs => if bs == Blocks() then pack else other,
          b => if b == pack then Some(Blocks()) else None,
          "cache", 1, maxBlobSize,
          b => Occurs(b))
    }
  }

  lemma SampleHashes(s: Sample, a: Bytes, b: Bytes)
    requires s.Distinct()
    ensures DigestPattern(s.Sha(a))
    ensures s.Occurs(a) && s.Occurs(b) && s.Sha(a) == s.Sha(b) ==> a == b
  {
    EmptyHashIsDigest();
    forall c: char | 'a' <= c <= 'd' ensures DigestPattern(Hex(c)) && Hex(c)[0] == c { HexDistinct(c, c); }
  }

  lemma SamplePacksOpen(s: Sample)
    requires s.Distinct()
    ensures var env := s.Environment();
      && (forall bs: seq<Block> {:trigger env.car(bs)} :: env.handled(env.car(bs)) ==>
           |env.car(bs)| > 0 && env.openCar(env.car(bs)) == Some(bs))
      && (forall bytes: Bytes {:trigger env.openCar(bytes)} :: env.openCar(bytes).Some? ==>
           forall b: Block :: b in env.openCar(bytes).value ==> |b.data| <= |bytes|)
  {
  }

  lemma SameTail(head: string, a: string, b: string)
    requires head + a == head + b
    ensures a == b
  {
    assert (head + a)[|head|..] == a && (head + b)[|head|..] == b;
  }

  lemma SampleHashesGood(s: Sample)
    requires s.Distinct()
    ensures var env := s.Environment();
      && (forall b {:trigger env.sha(b)} :: DigestPattern(env.sha(b)))
      && (forall a, b {:trigger env.handled(a), env.handled(b)} ::
           env.handled(a) && env.handled(b) && env.sha(a) == env.sha(b) ==> a == b)
  {
    var env := s.Environment();
    forall a: Bytes, b: Bytes
      ensures DigestPattern(env.sha(a)) && (env.handled(a) && env.handled(b) && env.sha(a) == env.sha(b) ==> a == b)
    {
      SampleHashes(s, a, b);
    }
  }

  lemma SampleCidsGood(s: Sample)
    ensures var env := s.Environment();
      && (forall d, e {:trigger env.rawCid(d), env.rawCid(e)} :: env.rawCid(d) == env.rawCid(e) ==> d == e)
      && (forall d, e {:trigger env.dagCid(d), env.dagCid(e)} :: env.dagCid(d) == env.dagCid(e) ==> d == e)
      && (forall d {:trigger env.dagCid(d)} :: env.dagCid(d) != "")
  {
    var env := s.Environment();
    forall d: string, e: string ensures env.dagCid(d) == env.dagCid(e) ==> d == e {
      if env.dagCid(d) == env.dagCid(e) { SameTail("m", d, e); }
    }
  }

  lemma SampleIsGood(s: Sample)
    requires s.Distinct()
    ensures s.Environment().Good()
  {
    SampleHashesGood(s);
    SampleCidsGood(s);
    SamplePacksOpen(s);
  }

  /**
   * The promises can be kept: for any sample there is an environment that keeps them, in which the empty blob has its
   * hash, and in which the empty blob, the blob, the pack of it and the encoded node all occur.
   */
  lemma PromisesCanBeKept(s: Sample)
    requires s.Distinct()
    ensures var env := s.Environment();
      && env.Good() && env.sha([]) == EMPTY_SHA256 && env.handled([]) && env.handled(s.blob)
      && env.car([Block(env.CidOf(s.blob), s.blob)]) == s.pack && env.handled(s.pack)
      && env.encode(s.node) == s.manifest && env.handled(s.manifest)
  {
    SampleIsGood(s);
  }

  function KeyFor(prefix: string, id: string): string { prefix + "-car-pack-v1-" + id }

  predicate HasSuffix(s: string, suffix: string) {
    |s| >= |suffix| && s[|s| - |suffix|..] == suffix
  }

  lemma PackKeyInjective(env: Env, a: string, b: string)
    requires env.PackKey(a) == env.PackKey(b)
    ensures a == b
  {
    var head := env.prefix + "-car-pack-v1-";
    assert env.PackKey(a) == head + a && env.PackKey(b) == head + b;
    assert (head + a)[|head|..] == a && (head + b)[|head|..] == b;
  }

  lemma ManifestKeyInjective(env: Env, a: string, b: string)
    requires env.ManifestKey(a) == env.ManifestKey(b)
    ensures a == b
  {
    var head := env.prefix + "-car-manifest-v1-";
    assert env.ManifestKey(a) == head + a && env.ManifestKey(b) == head + b;
    assert (head + a)[|head|..] == a && (head + b)[|head|..] == b;
  }

  lemma KeysDisjoint(env: Env, a: string, b: string)
    ensures env.PackKey(a) != env.ManifestKey(b)
  {
    assert env.PackKey(a)[|env.prefix| + 5] == 'p';
    assert env.ManifestKey(b)[|env.prefix| + 5] == 'm';
  }

  lemma PackKeySuffix(env: Env, id: string)
    ensures HasSuffix(env.PackKey(id), "-car-pack-v1-" + id) && env.PackKey(id) != ""
  {
    var suffix := "-car-pack-v1-" + id;
    assert env.PackKey(id) == env.prefix + suffix;
    assert (env.prefix + suffix)[|env.prefix|..] == suffix;
  }
}

/** The immutable manifest: its shape, its validation and its DAG-CBOR encoding. */
module Manifests {
  import opened Common
  import opened Sorting
  import opened Environment

  const FORMAT_VERSION := 1

  datatype PackDescriptor = PackDescriptor(id: string, key: string, size: int)

  datatype ManifestObject = ManifestObject(digest: string, cid: string, packId: string, size: int)

  datatype ManifestAction = ManifestAction(digest: string, cid: string, packId: string, size: int, closurePacks: seq<string>)

  datatype Manifest = Manifest(
    version: int,
    parents: seq<string>,
    packs: seq<PackDescriptor>,
    cas: seq<ManifestObject>,
    actions: seq<ManifestAction>)

  function PackIdOf(p: PackDescriptor): string { p.id }
  function PackKeyOf(p: PackDescriptor): string { p.key }
  function CasDigestOf(o: ManifestObject): string { o.digest }
  function CasPackOf(o: ManifestObject): string { o.packId }
  function ActionDigestOf(a: ManifestAction): string { a.digest }

  // ----- validation -----

  ghost predicate DistinctBy<T>(s: seq<T>, key: T -> string) {
    forall i, j :: 0 <= i < j < |s| ==> key(s[i]) != key(s[j])
  }

  ghost predicate WithinLimits(m: Manifest) {
    |m.parents| <= 4096 && |m.packs| <= 4096 && |m.cas| <= 100_000 && |m.actions| <= 100_000
  }

  predicate PackOk(p: PackDescriptor) {
    && DigestPattern(p.id) && p.size > 0 && p.key != ""
    && (p.key == KeyFor("", p.id) || HasSuffix(p.key, "-car-pack-v1-" + p.id))
  }

  predicate ObjectOk(env: Env, o: ManifestObject) {
    DigestPattern(o.digest) && o.size >= 0 && o.cid == env.rawCid(o.digest)
  }

  predicate ActionOk(env: Env, a: ManifestAction) {
    DigestPattern(a.digest) && a.size >= 0 && env.validCid(a.cid)
  }

  ghost predicate Declared(m: Manifest, packId: string) {
    exists p :: p in m.packs && p.id == packId
  }

  ghost predicate PacksWellFormed(m: Manifest) {
    (forall p :: p in m.packs ==> PackOk(p)) && DistinctBy(m.packs, PackIdOf)
  }

  ghost predicate CasWellFormed(env: Env, m: Manifest) {
    && (forall o :: o in m.cas ==> ObjectOk(env, o) && Declared(m, o.packId))
    && DistinctBy(m.cas, CasDigestOf)
  }

  ghost predicate ActionWellFormed(env: Env, m: Manifest, a: ManifestAction) {
    ActionOk(env, a) && Declared(m, a.packId) && forall c :: c in a.closurePacks ==> DigestPattern(c)
  }

  ghost predicate ActionsWellFormed(env: Env, m: Manifest) {
    && (forall a :: a in m.actions ==> ActionWellFormed(env, m, a))
    && DistinctBy(m.actions, ActionDigestOf)
  }

  /** A manifest a reader accepts, stated without regard to the order of its lists. */
  ghost predicate WellFormed(env: Env, m: Manifest) {
    && WithinLimits(m)
    && PacksWellFormed(m)
    && CasWellFormed(env, m)
    && ActionsWellFormed(env, m)
    && (forall p :: p in m.parents ==> env.validCid(p))
  }

  /** A manifest of one pack and of these blobs, all of size one. */
  function BlobManifest(env: Env, pack: PackDescriptor, digests: seq<string>): Manifest {
    Manifest(FORMAT_VERSION, [], [pack],
             seq(|digests|, i requires 0 <= i < |digests| => ManifestObject(digests[i], env.rawCid(digests[i]), pack.id, 1)), [])
  }

  /** The limit in numbers: a manifest of different valid blobs is accepted exactly if there are at most a hundred thousand. */
  lemma AcceptedUpToTheLimit(env: Env, pack: PackDescriptor, digests: seq<string>)
    requires PackOk(pack) && NoRepeats(digests) && forall d :: d in digests ==> DigestPattern(d)
    ensures WellFormed(env, BlobManifest(env, pack, digests)) <==> |digests| <= 100_000
  {
    var m := BlobManifest(env, pack, digests);
    assert m.packs[0] == pack && pack in m.packs;
    forall o | o in m.cas ensures ObjectOk(env, o) && Declared(m, o.packId) {
      var i :| 0 <= i < |m.cas| && m.cas[i] == o;
      assert digests[i] in digests;
    }
  }

  method ValidatePacks(packs: seq<PackDescriptor>) returns (ok: bool, ids: set<string>)
    ensures ok <==> (forall p :: p in packs ==> PackOk(p)) && DistinctBy(packs, PackIdOf)
    ensures ok ==> ids == set p | p in packs :: p.id
  {
    ids := {};
    for i := 0 to |packs|
      invariant ids == set p | p in packs[..i] :: p.id
      invariant forall p :: p in packs[..i] ==> PackOk(p)
      invariant DistinctBy(packs[..i], PackIdOf)
    {
      assert packs[..i + 1] == packs[..i] + [packs[i]];
      if !PackOk(packs[i]) {
        return false, ids;
      }
      if packs[i].id in ids {
        var k :| 0 <= k < i && packs[k].id == packs[i].id;
        assert PackIdOf(packs[k]) == PackIdOf(packs[i]);
        return false, ids;
      }
      ids := ids + {packs[i].id};
    }
    assert packs[..|packs|] == packs;
    ok := true;
  }

  method ValidateObjects(env: Env, objects: seq<ManifestObject>, ids: set<string>) returns (ok: bool)
    ensures ok <==> (forall o :: o in objects ==> ObjectOk(env, o) && o.packId in ids) && DistinctBy(objects, CasDigestOf)
  {
    var seen: set<string> := {};
    for i := 0 to |objects|
      invariant seen == set o | o in objects[..i] :: o.digest
      invariant forall o :: o in objects[..i] ==> ObjectOk(env, o) && o.packId in ids
      invariant DistinctBy(objects[..i], CasDigestOf)
    {
      assert objects[..i + 1] == objects[..i] + [objects[i]];
      if !ObjectOk(env, objects[i]) || objects[i].packId !in ids {
        return false;
      }
      if objects[i].digest in seen {
        var k :| 0 <= k < i && objects[k].digest == objects[i].digest;
        assert CasDigestOf(objects[k]) == CasDigestOf(objects[i]);
        return false;
      }
      seen := seen + {objects[i].digest};
    }
    assert objects[..|objects|] == objects;
    ok := true;
  }

  method ValidateActions(env: Env, actions: seq<ManifestAction>, ids: set<string>) returns (ok: bool)
    requires forall id :: id in ids ==> DigestPattern(id)
    ensures ok <==>
      && (forall a :: a in actions ==>
           ActionOk(env, a) && a.packId in ids && forall c :: c in a.closurePacks ==> DigestPattern(c))
      && DistinctBy(actions, ActionDigestOf)
  {
    var seen: set<string> := {};
    for i := 0 to |actions|
      invariant seen == set a | a in actions[..i] :: a.digest
      invariant forall a :: a in actions[..i] ==>
        ActionOk(env, a) && a.packId in ids && forall c :: c in a.closurePacks ==> DigestPattern(c)
      invariant DistinctBy(actions[..i], ActionDigestOf)
    {
      var action := actions[i];
      assert actions[..i + 1] == actions[..i] + [action];
      if !ActionOk(env, action) || action.packId !in ids {
        return false;
      }
      for j := 0 to |action.closurePacks|
        invariant forall c :: c in action.closurePacks[..j] ==> DigestPattern(c)
      {
        if action.closurePacks[j] !in ids && !DigestPattern(action.closurePacks[j]) {
          return false;
        }
      }
      if action.digest in seen {
        var k :| 0 <= k < i && actions[k].digest == action.digest;
        assert ActionDigestOf(actions[k]) == ActionDigestOf(actions[i]);
        return false;
      }
      seen := seen + {action.digest};
    }
    assert actions[..|actions|] == actions;
    ok := true;
  }

  method Validate(env: Env, m: Manifest) returns (ok: bool)
    ensures ok <==> WellFormed(env, m)
  {
    if |m.parents| > 4096 || |m.packs| > 4096 || |m.cas| > 100_000 || |m.actions| > 100_000 {
      return false;
    }
    var ids;
    ok, ids := ValidatePacks(m.packs);
    if !ok { return; }
    assert forall id :: id in ids <==> Declared(m, id);
    ok := ValidateObjects(env, m.cas, ids);
    if !ok { return; }
    ok := ValidateActions(env, m.actions, ids);
    if !ok { return; }
    for i := 0 to |m.parents|
      invariant forall p :: p in m.parents[..i] ==> env.validCid(p)
    {
      if !env.validCid(m.parents[i]) {
        return false;
      }
    }
  }

  // ----- canonical order -----

  function CanonicalAction(a: ManifestAction): ManifestAction {
    a.(closurePacks := SortBy(a.closurePacks, Identity))
  }

  function CanonicalActions(actions: seq<ManifestAction>): (r: seq<ManifestAction>)
    ensures |r| == |actions|
    ensures forall i :: 0 <= i < |r| ==> r[i] == CanonicalAction(actions[i])
  {
    if actions == [] then [] else [CanonicalAction(actions[0])] + CanonicalActions(actions[1..])
  }

  function EncodedActions(actions: seq<ManifestAction>): seq<ManifestAction> {
    CanonicalActions(SortBy(actions, ActionDigestOf))
  }

  /** The order in which an encoded manifest lists its entries. */
  function Canonical(m: Manifest): Manifest {
    m.(parents := SortBy(m.parents, Identity),
       packs := SortBy(m.packs, PackIdOf),
       cas := SortBy(m.cas, CasDigestOf),
       actions := EncodedActions(m.actions))
  }

  lemma DistinctByPermutation<T>(a: seq<T>, b: seq<T>, key: T -> string)
    requires multiset(a) == multiset(b) && DistinctBy(a, key)
    ensures DistinctBy(b, key) && KeyInjective(a, key)
  {
    forall x | x in b ensures x in a && multiset(b)[x] == 1 {
      assert x in multiset(a);
      CountByNoRepeats(a, x);
    }
    NoRepeatsByCount(b);
    forall x, y | x in a && y in a && key(x) == key(y) ensures x == y {
      var i :| 0 <= i < |a| && a[i] == x;
      var j :| 0 <= j < |a| && a[j] == y;
      assert !(i < j) && !(j < i);
    }
    forall i, j | 0 <= i < j < |b| ensures key(b[i]) != key(b[j]) {
      assert b[i] in a && b[j] in a && b[i] != b[j];
    }
  }

  lemma EncodedActionsMembers(actions: seq<ManifestAction>)
    ensures forall a :: a in actions ==> CanonicalAction(a) in EncodedActions(actions)
    ensures forall x :: x in EncodedActions(actions) ==> exists a :: a in actions && x == CanonicalAction(a)
  {
    var sorted, ordered := SortBy(actions, ActionDigestOf), EncodedActions(actions);
    SortByMembers(actions, ActionDigestOf);
    forall a | a in actions ensures CanonicalAction(a) in ordered {
      var i :| 0 <= i < |sorted| && sorted[i] == a;
      assert ordered[i] == CanonicalAction(a);
    }
    forall x | x in ordered ensures exists a :: a in actions && x == CanonicalAction(a) {
      var i :| 0 <= i < |ordered| && ordered[i] == x;
      assert sorted[i] in actions;
    }
  }

  lemma CanonicalMembers(m: Manifest)
    ensures var c := Canonical(m);
      && (forall p :: p in c.parents <==> p in m.parents) && |c.parents| == |m.parents|
      && (forall p :: p in c.packs <==> p in m.packs) && |c.packs| == |m.packs|
      && (forall o :: o in c.cas <==> o in m.cas) && |c.cas| == |m.cas|
      && |c.actions| == |m.actions|
      && (forall a :: a in m.actions ==> CanonicalAction(a) in c.actions)
      && (forall a :: a in c.actions ==> exists b :: b in m.actions && a == CanonicalAction(b))
  {
    var c := Canonical(m);
    SortByMembers(m.parents, Identity);
    SortByMembers(m.packs, PackIdOf);
    SortByMembers(m.cas, CasDigestOf);
    SortByMembers(m.actions, ActionDigestOf);
    EncodedActionsMembers(m.actions);
  }

  lemma CanonicalClosure(a: ManifestAction)
    ensures forall c :: c in CanonicalAction(a).closurePacks <==> c in a.closurePacks
  {
    SortByMembers(a.closurePacks, Identity);
  }

  lemma CanonicalDistinct(m: Manifest)
    ensures DistinctBy(Canonical(m).packs, PackIdOf) <==> DistinctBy(m.packs, PackIdOf)
    ensures DistinctBy(Canonical(m).cas, CasDigestOf) <==> DistinctBy(m.cas, CasDigestOf)
    ensures DistinctBy(Canonical(m).actions, ActionDigestOf) <==> DistinctBy(m.actions, ActionDigestOf)
  {
    DistinctSorted(m.packs, PackIdOf);
    DistinctSorted(m.cas, CasDigestOf);
    DistinctSorted(m.actions, ActionDigestOf);
    var sorted := SortBy(m.actions, ActionDigestOf);
    var actions := Canonical(m).actions;
    assert |actions| == |sorted|;
    assert forall i :: 0 <= i < |actions| ==> ActionDigestOf(actions[i]) == ActionDigestOf(sorted[i]);
  }

  lemma DistinctSorted<T>(s: seq<T>, key: T -> string)
    ensures DistinctBy(SortBy(s, key), key) <==> DistinctBy(s, key)
  {
    SortBySorts(s, key);
    if DistinctBy(s, key) { DistinctByPermutation(s, SortBy(s, key), key); }
    if DistinctBy(SortBy(s, key), key) { DistinctByPermutation(SortBy(s, key), s, key); }
  }

  lemma CanonicalActionWellFormed(env: Env, m: Manifest, a: ManifestAction)
    ensures ActionWellFormed(env, Canonical(m), CanonicalAction(a)) <==> ActionWellFormed(env, m, a)
  {
    CanonicalMembers(m);
    CanonicalClosure(a);
    assert Declared(Canonical(m), a.packId) <==> Declared(m, a.packId);
  }

  lemma CanonicalActionsWellFormed(env: Env, m: Manifest)
    ensures ActionsWellFormed(env, Canonical(m)) <==> ActionsWellFormed(env, m)
  {
    CanonicalMembers(m);
    CanonicalDistinct(m);
    forall a ensures ActionWellFormed(env, Canonical(m), CanonicalAction(a)) <==> ActionWellFormed(env, m, a) {
      CanonicalActionWellFormed(env, m, a);
    }
  }

  lemma CanonicalPacksWellFormed(m: Manifest)
    ensures PacksWellFormed(Canonical(m)) <==> PacksWellFormed(m)
  {
    CanonicalMembers(m);
    CanonicalDistinct(m);
  }

  lemma CanonicalCasWellFormed(env: Env, m: Manifest)
    ensures CasWellFormed(env, Canonical(m)) <==> CasWellFormed(env, m)
  {
    CanonicalMembers(m);
    CanonicalDistinct(m);
    forall id ensures Declared(Canonical(m), id) <==> Declared(m, id) {}
  }

  /** Validation does not depend on the order of any list. */
  lemma CanonicalWellFormed(env: Env, m: Manifest)
    ensures WellFormed(env, Canonical(m)) <==> WellFormed(env, m)
  {
    CanonicalPacksWellFormed(m);
    CanonicalCasWellFormed(env, m);
    CanonicalActionsWellFormed(env, m);
    CanonicalMembers(m);
  }

  // ----- the node form -----

  function MapNodes<T>(xs: seq<T>, f: T -> Node): seq<Node> {
    if xs == [] then [] else [f(xs[0])] + MapNodes(xs[1..], f)
  }

  function ReadNodes<T>(items: seq<Node>, read: Node -> Option<T>): Option<seq<T>> {
    if items == [] then Some([])
    else
      match read(items[0])
      case None => None
      case Some(x) =>
        match ReadNodes(items[1..], read)
        case None => None
        case Some(xs) => Some([x] + xs)
  }

  lemma ReadCons<T>(first: Node, rest: seq<Node>, read: Node -> Option<T>, x: T, xs: seq<T>)
    requires read(first) == Some(x) && ReadNodes(rest, read) == Some(xs)
    ensures ReadNodes([first] + rest, read) == Some([x] + xs)
  {
    assert ([first] + rest)[1..] == rest;
  }

  lemma {:induction false} ReadInvertsMap<T>(xs: seq<T>, f: T -> Node, read: Node -> Option<T>)
    requires forall x :: x in xs ==> read(f(x)) == Some(x)
    ensures ReadNodes(MapNodes(xs, f), read) == Some(xs)
  {
    if xs != [] {
      assert xs[0] in xs;
      ReadInvertsMap(xs[1..], f, read);
      ReadCons(f(xs[0]), MapNodes(xs[1..], f), read, xs[0], xs[1..]);
      assert xs == [xs[0]] + xs[1..];
    }
  }

  function StringToNode(s: string): Node { StringNode(s) }

  function PackToNode(p: PackDescriptor): Node {
    MapNode(map["id" := StringNode(p.id), "key" := StringNode(p.key), "size" := IntNode(p.size)])
  }

  function ObjectToNode(o: ManifestObject): Node {
    MapNode(map["cid" := StringNode(o.cid), "digest" := StringNode(o.digest),
                "pack" := StringNode(o.packId), "size" := IntNode(o.size)])
  }

  function ActionToNode(a: ManifestAction): Node {
    MapNode(map["cid" := StringNode(a.cid), "digest" := StringNode(a.digest), "pack" := StringNode(a.packId),
                "closure" := ListNode(MapNodes(a.closurePacks, StringToNode)), "size" := IntNode(a.size)])
  }

  function ManifestToNode(m: Manifest): Option<Node> {
    if m.version != FORMAT_VERSION then None
    else
      var c := Canonical(m);
      Some(MapNode(map[
        "actions" := ListNode(MapNodes(c.actions, ActionToNode)),
        "cas" := ListNode(MapNodes(c.cas, ObjectToNode)),
        "packs" := ListNode(MapNodes(c.packs, PackToNode)),
        "parents" := ListNode(MapNodes(c.parents, StringToNode)),
        "version" := IntNode(c.version)]))
  }

  function StringAt(n: Node, key: string): Option<string> {
    if n.MapNode? && key in n.fields && n.fields[key].StringNode? then Some(n.fields[key].s) else None
  }

  function IntAt(n: Node, key: string): Option<int> {
    if n.MapNode? && key in n.fields && n.fields[key].IntNode? then Some(n.fields[key].i) else None
  }

  function ListAt<T>(n: Node, key: string, read: Node -> Option<T>): Option<seq<T>> {
    if n.MapNode? && key in n.fields && n.fields[key].ListNode? then ReadNodes(n.fields[key].items, read) else None
  }

  function NodeToString(n: Node): Option<string> {
    if n.StringNode? then Some(n.s) else None
  }

  function NodeToPack(n: Node): Option<PackDescriptor> {
    var id, key, size := StringAt(n, "id"), StringAt(n, "key"), IntAt(n, "size");
    if id.Some? && key.Some? && size.Some? then Some(PackDescriptor(id.value, key.value, size.value)) else None
  }

  function NodeToObject(n: Node): Option<ManifestObject> {
    var digest, cid, pack, size := StringAt(n, "digest"), StringAt(n, "cid"), StringAt(n, "pack"), IntAt(n, "size");
    if digest.Some? && cid.Some? && pack.Some? && size.Some?
    then Some(ManifestObject(digest.value, cid.value, pack.value, size.value)) else None
  }

  function NodeToAction(n: Node): Option<ManifestAction> {
    var digest, cid, pack, size := StringAt(n, "digest"), StringAt(n, "cid"), StringAt(n, "pack"), IntAt(n, "size");
    var closure := ListAt(n, "closure", NodeToString);
    if digest.Some? && cid.Some? && pack.Some? && size.Some? && closure.Some?
    then Some(ManifestAction(digest.value, cid.value, pack.value, size.value, closure.value)) else None
  }

  ghost function NodeToManifest(env: Env, n: Node): Option<Manifest> {
    var version := IntAt(n, "version");
    var parents := ListAt(n, "parents", NodeToString);
    var packs := ListAt(n, "packs", NodeToPack);
    var cas := ListAt(n, "cas", NodeToObject);
    var actions := ListAt(n, "actions", NodeToAction);
    if version == Some(FORMAT_VERSION) && parents.Some? && packs.Some? && cas.Some? && actions.Some? then
      var m := Manifest(FORMAT_VERSION, parents.value, packs.value, cas.value, actions.value);
      if WellFormed(env, m) then Some(m) else None
    else None
  }

  lemma PackNodeRoundTrip(p: PackDescriptor)
    ensures NodeToPack(PackToNode(p)) == Some(p)
  {
    var n := PackToNode(p);
    assert StringAt(n, "id") == Some(p.id) && StringAt(n, "key") == Some(p.key) && IntAt(n, "size") == Some(p.size);
  }

  lemma ObjectNodeRoundTrip(o: ManifestObject)
    ensures NodeToObject(ObjectToNode(o)) == Some(o)
  {
    var n := ObjectToNode(o);
    assert StringAt(n, "digest") == Some(o.digest) && StringAt(n, "cid") == Some(o.cid);
    assert StringAt(n, "pack") == Some(o.packId) && IntAt(n, "size") == Some(o.size);
  }

  lemma ActionNodeRoundTrip(a: ManifestAction)
    ensures NodeToAction(ActionToNode(a)) == Some(a)
  {
    var n := ActionToNode(a);
    assert StringAt(n, "digest") == Some(a.digest) && StringAt(n, "cid") == Some(a.cid);
    assert StringAt(n, "pack") == Some(a.packId) && IntAt(n, "size") == Some(a.size);
    ReadInvertsMap(a.closurePacks, StringToNode, NodeToString);
    assert ListAt(n, "closure", NodeToString) == Some(a.closurePacks);
  }

  lemma ParentsNodeRoundTrip(m: Manifest)
    requires m.version == FORMAT_VERSION
    ensures ListAt(ManifestToNode(m).value, "parents", NodeToString) == Some(Canonical(m).parents)
    ensures IntAt(ManifestToNode(m).value, "version") == Some(FORMAT_VERSION)
  {
    ReadInvertsMap(Canonical(m).parents, StringToNode, NodeToString);
  }

  lemma PacksNodeRoundTrip(m: Manifest)
    requires m.version == FORMAT_VERSION
    ensures ListAt(ManifestToNode(m).value, "packs", NodeToPack) == Some(Canonical(m).packs)
  {
    var packs := Canonical(m).packs;
    forall p | p in packs ensures NodeToPack(PackToNode(p)) == Some(p) { PackNodeRoundTrip(p); }
    ReadInvertsMap(packs, PackToNode, NodeToPack);
  }

  lemma CasNodeRoundTrip(m: Manifest)
    requires m.version == FORMAT_VERSION
    ensures ListAt(ManifestToNode(m).value, "cas", NodeToObject) == Some(Canonical(m).cas)
  {
    var cas := Canonical(m).cas;
    forall o | o in cas ensures NodeToObject(ObjectToNode(o)) == Some(o) { ObjectNodeRoundTrip(o); }
    ReadInvertsMap(cas, ObjectToNode, NodeToObject);
  }

  lemma ActionsNodeRoundTrip(m: Manifest)
    requires m.version == FORMAT_VERSION
    ensures ListAt(ManifestToNode(m).value, "actions", NodeToAction) == Some(Canonical(m).actions)
  {
    var actions := Canonical(m).actions;
    forall a | a in actions ensures NodeToAction(ActionToNode(a)) == Some(a) { ActionNodeRoundTrip(a); }
    ReadInvertsMap(actions, ActionToNode, NodeToAction);
  }

  /** Reading back the node of a manifest gives its canonical order, or nothing if it is malformed. */
  lemma ManifestNodeRoundTrip(env: Env, m: Manifest)
    requires m.version == FORMAT_VERSION
    ensures NodeToManifest(env, ManifestToNode(m).value) == if WellFormed(env, m) then Some(Canonical(m)) else None
  {
    ParentsNodeRoundTrip(m);
    PacksNodeRoundTrip(m);
    CasNodeRoundTrip(m);
    ActionsNodeRoundTrip(m);
    CanonicalWellFormed(env, m);
  }

  // ----- bytes -----

  datatype Encoded = Encoded(data: Bytes, id: string)

  function EncodeManifest(env: Env, m: Manifest): Option<Encoded> {
    match ManifestToNode(m)
    case None => None
    case Some(n) => Some(Encoded(env.encode(n), env.dagCid(env.sha(env.encode(n)))))
  }

  /** An empty `expected` skips the CID check. */
  ghost function DecodeManifest(env: Env, data: Bytes, expected: string): Option<Manifest> {
    if expected != "" && env.dagCid(env.sha(data)) != expected then None
    else
      match env.decode(data)
      case None => None
      case Some(n) => NodeToManifest(env, n)
  }

  method Decode(env: Env, data: Bytes, expected: string) returns (r: Option<Manifest>)
    ensures r == DecodeManifest(env, data, expected)
  {
    if expected != "" && env.dagCid(env.sha(data)) != expected {
      return None;
    }
    match env.decode(data)
    case None => return None;
    case Some(n) =>
      if IntAt(n, "version") != Some(FORMAT_VERSION) {
        return None;
      }
      var parents, packs := ListAt(n, "parents", NodeToString), ListAt(n, "packs", NodeToPack);
      var cas, actions := ListAt(n, "cas", NodeToObject), ListAt(n, "actions", NodeToAction);
      if parents == None || packs == None || cas == None || actions == None {
        return None;
      }
      var m := Manifest(FORMAT_VERSION, parents.value, packs.value, cas.value, actions.value);
      var ok := Validate(env, m);
      r := if ok then Some(m) else None;
  }

  /** Decoding an encoded manifest under its own CID gives it back in canonical order, exactly when it is well formed. */
  lemma DecodeInvertsEncode(env: Env, m: Manifest)
    requires env.Good() && m.version == FORMAT_VERSION
    requires env.handled(EncodeManifest(env, m).value.data)
    ensures var e := EncodeManifest(env, m).value;
      DecodeManifest(env, e.data, e.id) == if WellFormed(env, m) then Some(Canonical(m)) else None
  {
    ManifestNodeRoundTrip(env, m);
    var n := ManifestToNode(m).value;
    assert env.decode(env.encode(n)) == Some(n);
  }

  /** The same entry, up to the order of its closure packs. */
  ghost predicate SameAction(a: ManifestAction, b: ManifestAction) {
    a.(closurePacks := []) == b.(closurePacks := []) && multiset(a.closurePacks) == multiset(b.closurePacks)
  }

  ghost predicate EachHasSame(a: seq<ManifestAction>, b: seq<ManifestAction>) {
    forall x :: x in a ==> exists y :: y in b && SameAction(x, y)
  }

  lemma SameActionCanonical(a: ManifestAction, b: ManifestAction)
    requires SameAction(a, b)
    ensures CanonicalAction(a) == CanonicalAction(b)
  {
    SortByPermutation(a.closurePacks, b.closurePacks, Identity);
  }

  lemma EncodedActionsSorted(actions: seq<ManifestAction>)
    requires DistinctBy(actions, ActionDigestOf)
    ensures SortedBy(EncodedActions(actions), ActionDigestOf) && DistinctBy(EncodedActions(actions), ActionDigestOf)
  {
    var sorted, ordered := SortBy(actions, ActionDigestOf), EncodedActions(actions);
    SortBySorts(actions, ActionDigestOf);
    DistinctSorted(actions, ActionDigestOf);
    SameKeysSorted(sorted, ordered, ActionDigestOf);
  }

  lemma SameKeysSorted<T>(s: seq<T>, t: seq<T>, key: T -> string)
    requires |s| == |t| && forall i :: 0 <= i < |s| ==> key(s[i]) == key(t[i])
    requires SortedBy(s, key) && DistinctBy(s, key)
    ensures SortedBy(t, key) && DistinctBy(t, key)
  {
  }

  lemma OrderedIncluded(a: seq<ManifestAction>, b: seq<ManifestAction>)
    requires DistinctBy(a, ActionDigestOf) && DistinctBy(b, ActionDigestOf) && EachHasSame(a, b)
    ensures forall x :: x in EncodedActions(a) ==> x in EncodedActions(b)
  {
    EncodedActionsMembers(a);
    EncodedActionsMembers(b);
    forall x | x in EncodedActions(a) ensures x in EncodedActions(b) {
      var e :| e in a && x == CanonicalAction(e);
      var f :| f in b && SameAction(e, f);
      SameActionCanonical(e, f);
    }
  }

  lemma SameMembersSameMultiset<T>(a: seq<T>, b: seq<T>, key: T -> string)
    requires DistinctBy(a, key) && DistinctBy(b, key) && forall x :: x in a <==> x in b
    ensures multiset(a) == multiset(b) && KeyInjective(a, key)
  {
    DistinctByPermutation(a, a, key);
    forall x ensures multiset(a)[x] == multiset(b)[x] {
      if x in a {
        CountByNoRepeats(a, x);
        CountByNoRepeats(b, x);
      } else {
        assert x !in multiset(a) && x !in multiset(b);
      }
    }
  }

  lemma ActionsIgnoreOrder(a: seq<ManifestAction>, b: seq<ManifestAction>)
    requires DistinctBy(a, ActionDigestOf) && DistinctBy(b, ActionDigestOf) && EachHasSame(a, b) && EachHasSame(b, a)
    ensures EncodedActions(a) == EncodedActions(b)
  {
    OrderedIncluded(a, b);
    OrderedIncluded(b, a);
    EncodedActionsSorted(a);
    EncodedActionsSorted(b);
    SameMembersSameMultiset(EncodedActions(a), EncodedActions(b), ActionDigestOf);
    SortedUnique(EncodedActions(a), EncodedActions(b), ActionDigestOf);
  }

  /**
   * The same entries in any order, and with the closure packs of each action in any order, encode to the same bytes
   * and the same CID.
   */
  lemma EncodeIgnoresOrder(env: Env, a: Manifest, b: Manifest)
    requires a.version == b.version
    requires multiset(a.parents) == multiset(b.parents)
    requires multiset(a.packs) == multiset(b.packs) && DistinctBy(a.packs, PackIdOf)
    requires multiset(a.cas) == multiset(b.cas) && DistinctBy(a.cas, CasDigestOf)
    requires DistinctBy(a.actions, ActionDigestOf) && DistinctBy(b.actions, ActionDigestOf)
    requires EachHasSame(a.actions, b.actions) && EachHasSame(b.actions, a.actions)
    ensures EncodeManifest(env, a) == EncodeManifest(env, b)
  {
    SortByPermutation(a.parents, b.parents, Identity);
    DistinctByPermutation(a.packs, b.packs, PackIdOf);
    SortByPermutation(a.packs, b.packs, PackIdOf);
    DistinctByPermutation(a.cas, b.cas, CasDigestOf);
    SortByPermutation(a.cas, b.cas, CasDigestOf);
    ActionsIgnoreOrder(a.actions, b.actions);
    assert Canonical(a) == Canonical(b);
  }
}
