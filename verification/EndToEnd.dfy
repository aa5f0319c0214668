/** From staging to serving: a published action result comes with everything its bytes reach. */
module EndToEnd {
  import opened Common
  import opened Environment
  import opened ActionResults
  import opened Validator
  import opened PackIndex
  import opened PackedWorld
  import opened PackedRuns
  import opened Completeness
  import opened FreshReader

  /** The blob was published by the manifest `id` or by one reachable from it through Parents. */
  ghost predicate PublishedBelow(g: World, id: string, f: Fact) {
    f in g.facts && f.CasFact? && Ancestor(g.log, id, f.id)
  }

  ghost function BlobDigests(g: World, id: string): set<string> {
    set f | f in g.facts && PublishedBelow(g, id, f) :: f.digest
  }

  ghost function BlobFact(g: World, id: string, h: string): (f: Fact)
    requires h in BlobDigests(g, id)
    ensures PublishedBelow(g, id, f) && f.digest == h
  {
    var f :| PublishedBelow(g, id, f) && f.digest == h;
    f
  }

  /** The blobs published by a manifest and its ancestry. */
  ghost function AncestryBlobs(g: World, id: string): map<string, Bytes> {
    map h | h in BlobDigests(g, id) :: BlobFact(g, id, h).data
  }

  /** The same, with the empty blob that clients never upload. */
  ghost function WithEmpty(blobs: map<string, Bytes>): map<string, Bytes> { PutIfAbsent(blobs, EMPTY_SHA256, []) }

  lemma AncestryGenuine(env: Env, g: World, id: string)
    requires SharedInv(env, g)
    ensures Genuine(env.sha, env.handled, AncestryBlobs(g, id))
  {
    var blobs := AncestryBlobs(g, id);
    forall h | h in blobs ensures env.sha(blobs[h]) == h && env.handled(blobs[h]) {
      var f := BlobFact(g, id, h);
      assert FactOk(env, g.log, f);
    }
  }

  lemma ListedWasStaged(env: Env, g: World, id: string, h: string) returns (f: Fact)
    requires SharedInv(env, g) && id in g.log && HasCas(g.log[id], h)
    ensures f in g.facts && f.CasFact? && f.id == id && f.digest == h
  {
    assert LogEntryOk(env, g.backend, g.facts, id, g.log[id]);
    var o :| o in g.log[id].cas && o.digest == h;
    assert CasFactFor(g.facts, id, o.digest);
    var data :| CasFact(id, h, data) in g.facts;
    f := CasFact(id, h, data);
  }

  lemma AnchoredIsPublished(env: Env, g: World, id: string, h: string)
    requires SharedInv(env, g) && AnchoredAt(g.log, id, h)
    ensures h in BlobDigests(g, id)
  {
    var anc :| Ancestor(g.log, id, anc) && anc in g.log && HasCas(g.log[anc], h);
    var f := ListedWasStaged(env, g, anc, h);
    assert PublishedBelow(g, id, f);
  }

  lemma StagedIsComplete(env: Env, g: World, f: Fact)
    requires env.Good() && SharedInv(env, g) && f in g.facts && f.ActionFact?
    ensures var full := WithEmpty(AncestryBlobs(g, f.id));
      Vouched(env.sha, full, f.data, full.Keys)
  {
    assert FactOk(env, g.log, f);
    AncestryGenuine(env, g, f.id);
    forall h | h in RealHashes(f.closure) ensures h in AncestryBlobs(g, f.id) {
      assert AnchoredAt(g.log, f.id, h);
      AnchoredIsPublished(env, g, f.id, h);
    }
    RealHashesSuffice(env.sha, env.handled, f.data, RealHashes(f.closure), AncestryBlobs(g, f.id));
  }

  /**
   * In every run, the bytes of a published action result pass validation against nothing but the blobs published by
   * its manifest and that manifest's ancestry, and the empty blob: everything they reach directly, through trees
   * and through directories is there, well formed and of the declared size.
   */
  lemma {:induction false} PublishedActionIsComplete(env: Env, steps: seq<Step>, f: Fact)
    requires env.Good() && f in Run(env, steps).facts && f.ActionFact?
    ensures var full := WithEmpty(AncestryBlobs(Run(env, steps), f.id));
      Vouched(env.sha, full, f.data, full.Keys)
  {
    RunKeepsInv(env, steps);
    StagedIsComplete(env, Run(env, steps), f);
  }

  // ----- what a fresh reader serves -----

  /** The blobs a reader without local objects resolves. */
  ghost function ReaderBlobs(env: Env, ix: Index, backend: map<string, Bytes>): map<string, Bytes> {
    map d | d in ix.cas && ResolveCas(env, ix, backend, d).Hit? :: ResolveCas(env, ix, backend, d).data
  }

  /** Every member of the closure is listed in a pack that can be downloaded. */
  ghost predicate ClosureFits(env: Env, ix: Index, closure: seq<DigestReference>) {
    forall h :: h in RealHashes(closure) ==> h in ix.cas && PackFits(env, ix, ix.cas[h].packId)
  }

  lemma ReaderBlobWasStaged(env: Env, g: World, ix: Index, h: string)
    requires SharedInv(env, g) && ReadsAsPublished(env, g, ix, h) && h in ReaderBlobs(env, ix, g.backend)
    ensures env.sha(ReaderBlobs(env, ix, g.backend)[h]) == h && env.handled(ReaderBlobs(env, ix, g.backend)[h])
  {
    var id, data :| CasFact(id, h, data) in g.facts;
    assert ReadsBlob(env, ix, g.backend, h, data);
    assert FactOk(env, g.log, CasFact(id, h, data));
  }

  lemma AnchoredIsRead(env: Env, g: World, ix: Index, id: string, h: string)
    requires SharedInv(env, g) && ReadsAsPublished(env, g, ix, h) && AnchoredAt(g.log, id, h)
    ensures h in ix.cas && (h in ReaderBlobs(env, ix, g.backend) <==> PackFits(env, ix, ix.cas[h].packId))
  {
    AnchoredIsPublished(env, g, id, h);
    var f := BlobFact(g, id, h);
    assert CasFact(f.id, h, f.data) in g.facts;
    assert ReadsBlob(env, ix, g.backend, h, f.data);
  }

  lemma ReaderGenuine(env: Env, g: World, ix: Index)
    requires SharedInv(env, g) && forall h :: ReadsAsPublished(env, g, ix, h)
    ensures Genuine(env.sha, env.handled, ReaderBlobs(env, ix, g.backend))
  {
    var blobs := ReaderBlobs(env, ix, g.backend);
    forall h | h in blobs ensures env.sha(blobs[h]) == h && env.handled(blobs[h]) {
      ReaderBlobWasStaged(env, g, ix, h);
    }
  }

  lemma MemberRead(env: Env, g: World, ix: Index, f: Fact, h: string)
    requires SharedInv(env, g) && f in g.facts && f.ActionFact? && h in RealHashes(f.closure) && ReadsAsPublished(env, g, ix, h)
    ensures h in ix.cas && (h in ReaderBlobs(env, ix, g.backend) <==> PackFits(env, ix, ix.cas[h].packId))
  {
    assert FactOk(env, g.log, f);
    assert AnchoredAt(g.log, f.id, h);
    AnchoredIsRead(env, g, ix, f.id, h);
  }

  lemma ClosureRead(env: Env, g: World, ix: Index, f: Fact)
    requires SharedInv(env, g) && f in g.facts && f.ActionFact? && forall h :: ReadsAsPublished(env, g, ix, h)
    ensures RealHashes(f.closure) <= ReaderBlobs(env, ix, g.backend).Keys <==> ClosureFits(env, ix, f.closure)
  {
    var hashes, readable := RealHashes(f.closure), ReaderBlobs(env, ix, g.backend).Keys;
    forall h | h in hashes ensures h in readable <==> h in ix.cas && PackFits(env, ix, ix.cas[h].packId) {
      MemberRead(env, g, ix, f, h);
    }
    FitsIfReadable(env, ix, f.closure, readable);
  }

  lemma FitsIfReadable(env: Env, ix: Index, closure: seq<DigestReference>, readable: set<string>)
    requires forall h :: h in RealHashes(closure) ==> (h in readable <==> h in ix.cas && PackFits(env, ix, ix.cas[h].packId))
    ensures RealHashes(closure) <= readable <==> ClosureFits(env, ix, closure)
  {
  }

  /** Validation at a reader that reads what was published. */
  lemma ReaderValidates(env: Env, g: World, ix: Index, f: Fact)
    requires env.Good() && SharedInv(env, g) && f in g.facts && f.ActionFact?
    requires forall h :: ReadsAsPublished(env, g, ix, h)
    ensures ActionResultOf(f.data).Some?
    ensures var blobs := ReaderBlobs(env, ix, g.backend);
      Vouched(env.sha, blobs, f.data, blobs.Keys) <==>
        ClosureFits(env, ix, f.closure)
        && (EMPTY_SHA256 in blobs || !ReachesEmptyDirectory(GraphOf(env.sha, blobs, ActionResultOf(f.data).value)))
  {
    assert ClosureHashes(env.sha, env.handled, f.data, RealHashes(f.closure)) by { assert FactOk(env, g.log, f); }
    ReaderGenuine(env, g, ix);
    ClosureRead(env, g, ix, f);
    CompleteIff(env.sha, env.handled, f.data, RealHashes(f.closure), ReaderBlobs(env, ix, g.backend));
  }

  /**
   * When a published action result is served. A fresh reader resolves one on which its writers agree to the staged bytes,
   * or to an error if its pack is too large to be downloaded. These bytes pass validation against the blobs the reader
   * resolves if and only if the packs of the real closure can be downloaded, and the empty blob is among those blobs or
   * the bytes reach no empty directory: publishing makes sure of neither.
   */
  lemma {:induction false} PublishedActionIsServed(env: Env, steps: seq<Step>, f: Fact)
    requires env.Good() && ManifestsFit(env, Run(env, steps))
    requires f in Run(env, steps).facts && f.ActionFact? && WritersAgree(Run(env, steps).facts, f.digest)
    ensures Loadable(env, Run(env, steps).backend, Run(env, steps).log.Keys) && ActionResultOf(f.data).Some?
    ensures var g := Run(env, steps);
      var ix := Discover(env, g.backend, g.log.Keys);
      var blobs := ReaderBlobs(env, ix, g.backend);
      && ReadsAction(env, ix, g.backend, f.digest, f.data)
      && (Vouched(env.sha, blobs, f.data, blobs.Keys) <==>
           ClosureFits(env, ix, f.closure)
           && (EMPTY_SHA256 in blobs || !ReachesEmptyDirectory(GraphOf(env.sha, blobs, ActionResultOf(f.data).value))))
  {
    RunKeepsInv(env, steps);
    var g := Run(env, steps);
    ReaderReadsAll(env, g);
    FreshReaderSeesFacts(env, g, f.digest);
    assert ReadsAgreed(env, g, Discover(env, g.backend, g.log.Keys), f);
    ReaderValidates(env, g, Discover(env, g.backend, g.log.Keys), f);
  }

  lemma ReaderReadsAll(env: Env, g: World)
    requires env.Good() && SharedInv(env, g) && ManifestsFit(env, g)
    ensures Loadable(env, g.backend, g.log.Keys)
    ensures forall h :: ReadsAsPublished(env, g, Discover(env, g.backend, g.log.Keys), h)
  {
    FreshReaderSeesFacts(env, g, "");
    forall h ensures ReadsAsPublished(env, g, Discover(env, g.backend, g.log.Keys), h) {
      FreshReaderSeesFacts(env, g, h);
    }
  }
}
