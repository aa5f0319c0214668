/** Two small action results, with which later modules show where guarantees end. */
module SmallResults {
  import opened Common
  import opened References
  import opened Wire
  import opened ActionResults
  import opened ActionEncoding

  /** Its only output is a stream. */
  function StreamResult(r: DigestReference): ActionMessage { ActionMessage([], [], None, Some(r), None, None) }

  /** Its only output is a directory, named by the digest of its root. */
  function RootResult(r: DigestReference): ActionMessage {
    ActionMessage([], [OutputDirectory(None, Some(r))], None, None, None, None)
  }

  // ----- their parts fit a length prefix -----

  lemma RootShort(r: DigestReference)
    requires EncodableDigest(r)
    ensures |EncodeDirectory(OutputDirectory(None, Some(r)))| <= 124
  {
    DigestShort(r);
    var f := BytesField(5, EncodeDigest(r));
    FieldShort(f);
    assert DigestField(3, None) + DigestField(5, Some(r)) == [f];
    assert EncodeFields([f]) == EncodeField(f) + EncodeFields([f][1..]);
  }

  // ----- what they mean -----

  lemma OneReference(r: DigestReference)
    ensures FirstPerHash([r]) == [r] && Consistent([r]) && FirstPerHash([]) == [] && Consistent([])
  {
    assert [r][..0] == [];
  }

  lemma StreamResultReferences(r: DigestReference)
    requires EncodableDigest(r)
    ensures ActionResultOf(EncodeAction(StreamResult(r))) == Some(ActionReferences([r], [], []))
  {
    DigestShort(r);
    OneReference(r);
    var m := StreamResult(r);
    ActionResultRoundTrip(m);
    assert MeantBlobs(m) == [r] && TreeDigests(m.dirs) == [] && RootDigests(m.dirs) == [];
  }

  lemma RootResultReferences(r: DigestReference)
    requires EncodableDigest(r)
    ensures ActionResultOf(EncodeAction(RootResult(r))) == Some(ActionReferences([], [], [r]))
  {
    DigestShort(r);
    RootShort(r);
    OneReference(r);
    var m := RootResult(r);
    ActionResultRoundTrip(m);
    assert MeantBlobs(m) == [];
    assert m.dirs[..0] == [];
    assert TreeDigests(m.dirs) == [] && RootDigests(m.dirs) == [r];
  }
}
