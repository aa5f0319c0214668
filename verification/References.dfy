/** Lists of digest references: first-wins deduplication by hash and sorting by hash. */
module References {
  import opened Common
  import opened Sorting

  function HashOf(r: DigestReference): string { r.hash }

  predicate HasHash(refs: seq<DigestReference>, hash: string) {
    exists i :: 0 <= i < |refs| && refs[i].hash == hash
  }

  /** The first reference of every hash, in order of first occurrence. */
  function FirstPerHash(refs: seq<DigestReference>): seq<DigestReference> {
    if refs == [] then []
    else
      var init := FirstPerHash(refs[..|refs| - 1]);
      var last := refs[|refs| - 1];
      if HasHash(init, last.hash) then init else init + [last]
  }

  /** No hash is given two sizes. */
  ghost predicate Consistent(refs: seq<DigestReference>) {
    forall r, q :: r in refs && q in refs && r.hash == q.hash ==> r.size == q.size
  }

  ghost predicate DistinctHashes(refs: seq<DigestReference>) {
    forall i, j :: 0 <= i < j < |refs| ==> refs[i].hash != refs[j].hash
  }

  lemma {:induction false} FirstPerHashKeeps(refs: seq<DigestReference>)
    ensures DistinctHashes(FirstPerHash(refs))
    ensures forall r :: r in FirstPerHash(refs) ==> r in refs
  {
    if refs != [] {
      FirstPerHashKeeps(refs[..|refs| - 1]);
      assert refs == refs[..|refs| - 1] + [refs[|refs| - 1]];
    }
  }

  lemma HasHashGrows(refs: seq<DigestReference>, more: seq<DigestReference>, hash: string)
    requires HasHash(refs, hash)
    ensures HasHash(refs + more, hash)
  {
    var i :| 0 <= i < |refs| && refs[i].hash == hash;
    assert (refs + more)[i].hash == hash;
  }

  lemma HasHashLast(refs: seq<DigestReference>, last: DigestReference)
    ensures HasHash(refs + [last], last.hash)
  {
    assert (refs + [last])[|refs|] == last;
  }

  lemma {:induction false} FirstPerHashCovers(refs: seq<DigestReference>)
    ensures forall r :: r in refs ==> HasHash(FirstPerHash(refs), r.hash)
  {
    if refs != [] {
      var init, last := refs[..|refs| - 1], refs[|refs| - 1];
      var kept := FirstPerHash(init);
      FirstPerHashCovers(init);
      assert refs == init + [last];
      forall r | r in refs ensures HasHash(FirstPerHash(refs), r.hash) {
        HasHashLast(kept, last);
        if r in init { HasHashGrows(kept, [last], r.hash); }
      }
    }
  }

  lemma FirstPerHashProperties(refs: seq<DigestReference>)
    ensures DistinctHashes(FirstPerHash(refs))
    ensures forall r :: r in FirstPerHash(refs) ==> r in refs
    ensures forall r :: r in refs ==> HasHash(FirstPerHash(refs), r.hash)
    ensures Consistent(refs) ==> forall r :: r in refs ==> r in FirstPerHash(refs)
  {
    FirstPerHashKeeps(refs);
    FirstPerHashCovers(refs);
    var all := FirstPerHash(refs);
    if Consistent(refs) {
      forall r | r in refs ensures r in all {
        assert HasHash(all, r.hash);
        var i :| 0 <= i < |all| && all[i].hash == r.hash;
        assert all[i] in refs;
        assert all[i] == r;
      }
    }
  }

  /** The deduplicated closure list, sorted by hash. */
  function SortReferences(refs: seq<DigestReference>): seq<DigestReference> {
    SortBy(FirstPerHash(refs), HashOf)
  }

  lemma SortReferencesMembers(refs: seq<DigestReference>)
    ensures forall r :: r in SortReferences(refs) ==> r in refs
    ensures Consistent(refs) ==> forall r :: r in refs ==> r in SortReferences(refs)
    ensures forall i, j :: 0 <= i < j < |SortReferences(refs)| ==>
      Lt(SortReferences(refs)[i].hash, SortReferences(refs)[j].hash)
  {
    var first := FirstPerHash(refs);
    var sorted := SortReferences(refs);
    FirstPerHashProperties(refs);
    SortByMembers(first, HashOf);
    SortBySorts(first, HashOf);
    forall r | r in first ensures multiset(first)[r] == 1 {
      CountByNoRepeats(first, r);
    }
    NoRepeatsByCount(sorted);
    forall i, j | 0 <= i < j < |sorted| ensures Lt(sorted[i].hash, sorted[j].hash) {
      assert sorted[i] in first && sorted[j] in first;
      DistinctHashesInjective(first, sorted[i], sorted[j]);
      assert !Lt(HashOf(sorted[j]), HashOf(sorted[i]));
      LtTotal(sorted[i].hash, sorted[j].hash);
    }
  }

  lemma DistinctHashesInjective(refs: seq<DigestReference>, r: DigestReference, q: DigestReference)
    requires DistinctHashes(refs) && r in refs && q in refs
    ensures r.hash == q.hash ==> r == q
  {
    var i :| 0 <= i < |refs| && refs[i] == r;
    var j :| 0 <= j < |refs| && refs[j] == q;
  }

  /** The map the Go code builds: the first reference of each hash. */
  ghost predicate IsFirstMap(unique: map<string, DigestReference>, refs: seq<DigestReference>) {
    && (forall h :: h in unique ==> unique[h].hash == h && unique[h] in FirstPerHash(refs))
    && (forall r :: r in FirstPerHash(refs) ==> r.hash in unique)
  }

  lemma FirstMapExtends(unique: map<string, DigestReference>, refs: seq<DigestReference>, i: int)
    requires 0 <= i < |refs| && IsFirstMap(unique, refs[..i])
    ensures var r := refs[i];
      IsFirstMap(if r.hash !in unique || unique[r.hash].size == r.size then unique[r.hash := r] else unique, refs[..i + 1])
  {
    var r := refs[i];
    assert refs[..i + 1][..i] == refs[..i];
    var init, all := FirstPerHash(refs[..i]), FirstPerHash(refs[..i + 1]);
    FirstPerHashProperties(refs[..i]);
    assert HasHash(init, r.hash) <==> r.hash in unique by {
      if HasHash(init, r.hash) {
        var k :| 0 <= k < |init| && init[k].hash == r.hash;
        assert init[k] in init;
      }
      if r.hash in unique { assert unique[r.hash] in init; }
    }
  }

  /** Range over the map in any order. */
  method ListValues(unique: map<string, DigestReference>) returns (values: seq<DigestReference>)
    requires forall h :: h in unique ==> unique[h].hash == h
    ensures DistinctHashes(values)
    ensures forall r :: r in values <==> r.hash in unique && unique[r.hash] == r
  {
    values := [];
    var left := unique.Keys;
    while left != {}
      invariant left <= unique.Keys && DistinctHashes(values)
      invariant forall r :: r in values <==> r.hash in unique && r.hash !in left && unique[r.hash] == r
      decreases left
    {
      var h :| h in left;
      values := values + [unique[h]];
      left := left - {h};
    }
  }

  lemma FirstMapSorted(unique: map<string, DigestReference>, refs: seq<DigestReference>, values: seq<DigestReference>)
    requires IsFirstMap(unique, refs) && DistinctHashes(values)
    requires forall r :: r in values <==> r.hash in unique && unique[r.hash] == r
    ensures SortBy(values, HashOf) == SortReferences(refs)
  {
    var first := FirstPerHash(refs);
    FirstPerHashProperties(refs);
    forall r ensures r in values <==> r in first {
      if r in first { DistinctHashesInjective(first, r, unique[r.hash]); }
    }
    SameElements(values, first);
    SortByPermutation(values, first, HashOf);
  }

  /** Go ranges over the map in any order and then sorts: the order of the range is forgotten. */
  method SortDigestReferences(values: seq<DigestReference>) returns (sorted: seq<DigestReference>)
    ensures sorted == SortReferences(values)
  {
    var unique: map<string, DigestReference> := map[];
    for i := 0 to |values|
      invariant IsFirstMap(unique, values[..i])
    {
      FirstMapExtends(unique, values, i);
      var value := values[i];
      if value.hash !in unique || unique[value.hash].size == value.size {
        unique := unique[value.hash := value];
      }
    }
    assert values[..|values|] == values;
    var collected := ListValues(unique);
    FirstMapSorted(unique, values, collected);
    sorted := SortBy(collected, HashOf);
  }

  lemma SameElements(a: seq<DigestReference>, b: seq<DigestReference>)
    requires DistinctHashes(a) && DistinctHashes(b)
    requires forall r :: r in a <==> r in b
    ensures multiset(a) == multiset(b) && KeyInjective(a, HashOf)
  {
    forall r ensures multiset(a)[r] == multiset(b)[r] {
      if r in a {
        CountByNoRepeats(a, r);
        CountByNoRepeats(b, r);
      } else {
        assert r !in multiset(a) && r !in multiset(b);
      }
    }
    forall x, y | x in a && y in a && HashOf(x) == HashOf(y) ensures x == y {
      DistinctHashesInjective(a, x, y);
    }
  }
}
