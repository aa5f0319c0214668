/** Go's string order and sorting by a string key. */
module Sorting {
  /** Go's `<` on strings. */
  predicate Lt(a: string, b: string) {
    b != [] && (a == [] || a[0] < b[0] || (a[0] == b[0] && Lt(a[1..], b[1..])))
  }

  /** A proper prefix sorts first. */
  lemma {:induction false} PrefixFirst(a: string, c: char, rest: string)
    ensures Lt(a, a + [c] + rest)
  {
    var b := a + [c] + rest;
    if a != [] {
      PrefixFirst(a[1..], c, rest);
      assert b[1..] == a[1..] + [c] + rest;
    }
  }

  /** The first character in which two strings differ decides. */
  lemma {:induction false} FirstDifferenceDecides(same: string, x: char, a: string, y: char, b: string)
    requires x != y
    ensures Lt(same + [x] + a, same + [y] + b) <==> x < y
  {
    var s, t := same + [x] + a, same + [y] + b;
    if same != [] {
      FirstDifferenceDecides(same[1..], x, a, y, b);
      assert s[1..] == same[1..] + [x] + a && t[1..] == same[1..] + [y] + b;
    }
  }

  lemma {:induction false} LtIrreflexive(a: string)
    ensures !Lt(a, a)
  {
    if a != [] { LtIrreflexive(a[1..]); }
  }

  lemma {:induction false} LtTransitive(a: string, b: string, c: string)
    requires Lt(a, b) && Lt(b, c)
    ensures Lt(a, c)
  {
    if a != [] && a[0] == b[0] && b[0] == c[0] { LtTransitive(a[1..], b[1..], c[1..]); }
  }

  lemma {:induction false} LtTotal(a: string, b: string)
    ensures Lt(a, b) || a == b || Lt(b, a)
  {
    if a != [] && b != [] && a[0] == b[0] {
      LtTotal(a[1..], b[1..]);
      assert a == [a[0]] + a[1..] && b == [b[0]] + b[1..];
    }
  }

  /** Nothing sorts strictly before `y` and strictly after it. */
  lemma LtAsymmetric(a: string, b: string)
    requires Lt(a, b)
    ensures !Lt(b, a)
  {
    if Lt(b, a) {
      LtTransitive(a, b, a);
      LtIrreflexive(a);
    }
  }

  /** "Not after" is transitive. */
  lemma NotAfterTransitive(a: string, b: string, c: string)
    requires !Lt(b, a) && !Lt(c, b)
    ensures !Lt(c, a)
  {
    if Lt(c, a) {
      LtTotal(a, b);
      LtTotal(b, c);
      if a != b && b != c {
        LtTransitive(a, b, c);
        LtAsymmetric(c, a);
      }
    }
  }

  function Insert<T>(x: T, s: seq<T>, key: T -> string): seq<T> {
    if s == [] || !Lt(key(s[0]), key(x)) then [x] + s
    else [s[0]] + Insert(x, s[1..], key)
  }

  /** What sort.Strings and sort.Slice with a key comparison return. */
  function SortBy<T>(s: seq<T>, key: T -> string): seq<T> {
    if s == [] then [] else Insert(s[0], SortBy(s[1..], key), key)
  }

  ghost predicate SortedBy<T>(s: seq<T>, key: T -> string) {
    forall i, j :: 0 <= i < j < |s| ==> !Lt(key(s[j]), key(s[i]))
  }

  /** No two different elements share a key. */
  ghost predicate KeyInjective<T>(s: seq<T>, key: T -> string) {
    forall x, y :: x in s && y in s && key(x) == key(y) ==> x == y
  }

  lemma {:induction false} InsertSorted<T>(x: T, s: seq<T>, key: T -> string)
    requires SortedBy(s, key)
    ensures SortedBy(Insert(x, s, key), key)
    ensures multiset(Insert(x, s, key)) == multiset{x} + multiset(s)
  {
    if s == [] {
    } else if !Lt(key(s[0]), key(x)) {
      forall j | 0 <= j < |s| ensures !Lt(key(s[j]), key(x)) {
        if j > 0 { NotAfterTransitive(key(x), key(s[0]), key(s[j])); }
      }
    } else {
      var rest := Insert(x, s[1..], key);
      InsertSorted(x, s[1..], key);
      assert s == [s[0]] + s[1..];
      assert multiset(s) == multiset{s[0]} + multiset(s[1..]);
      forall j | 0 <= j < |rest| ensures !Lt(key(rest[j]), key(s[0])) {
        assert rest[j] in multiset(rest);
        if rest[j] == x {
          LtAsymmetric(key(s[0]), key(x));
        } else {
          assert rest[j] in s[1..];
        }
      }
    }
  }

  lemma {:induction false} SortBySorts<T>(s: seq<T>, key: T -> string)
    ensures SortedBy(SortBy(s, key), key)
    ensures multiset(SortBy(s, key)) == multiset(s)
  {
    if s != [] {
      SortBySorts(s[1..], key);
      InsertSorted(s[0], SortBy(s[1..], key), key);
      assert s == [s[0]] + s[1..];
    }
  }

  lemma SortByMembers<T>(s: seq<T>, key: T -> string)
    ensures |SortBy(s, key)| == |s|
    ensures forall x :: x in SortBy(s, key) <==> x in s
  {
    SortBySorts(s, key);
    assert |multiset(s)| == |s|;
    forall x ensures x in SortBy(s, key) <==> x in s {
      assert x in SortBy(s, key) <==> x in multiset(SortBy(s, key));
    }
  }

  lemma SortedHeadIsLeast<T>(s: seq<T>, x: T, key: T -> string)
    requires SortedBy(s, key) && x in s
    ensures !Lt(key(x), key(s[0]))
  {
    LtIrreflexive(key(s[0]));
  }

  lemma TailMultiset<T>(s: seq<T>)
    requires s != []
    ensures multiset(s[1..]) == multiset(s) - multiset{s[0]}
  {
    assert s == [s[0]] + s[1..];
  }

  /** Two sorted arrangements of the same elements are the same list. */
  lemma {:induction false} SortedUnique<T>(a: seq<T>, b: seq<T>, key: T -> string)
    requires SortedBy(a, key) && SortedBy(b, key)
    requires multiset(a) == multiset(b)
    requires KeyInjective(a, key)
    ensures a == b
  {
    assert |multiset(a)| == |a| && |multiset(b)| == |b|;
    if a != [] {
      assert a[0] in b by { assert a[0] in multiset(b); }
      assert b[0] in a by { assert b[0] in multiset(a); }
      SortedHeadIsLeast(a, b[0], key);
      SortedHeadIsLeast(b, a[0], key);
      LtTotal(key(a[0]), key(b[0]));
      assert a[0] == b[0];
      TailMultiset(a);
      TailMultiset(b);
      SortedUnique(a[1..], b[1..], key);
      assert a == [a[0]] + a[1..] && b == [b[0]] + b[1..];
    }
  }

  /** Sorting forgets the input order. */
  lemma SortByPermutation<T>(a: seq<T>, b: seq<T>, key: T -> string)
    requires multiset(a) == multiset(b)
    requires KeyInjective(a, key)
    ensures SortBy(a, key) == SortBy(b, key)
  {
    SortBySorts(a, key);
    SortBySorts(b, key);
    var sorted := SortBy(a, key);
    assert KeyInjective(sorted, key) by { SortByMembers(a, key); }
    SortedUnique(sorted, SortBy(b, key), key);
  }

  lemma RepeatCounts<T>(s: seq<T>, i: int, j: int)
    requires 0 <= i < j < |s|
    ensures s[i] == s[j] ==> multiset(s)[s[i]] >= 2
  {
    assert s == s[..j] + [s[j]] + s[j + 1..];
    assert multiset(s) == multiset(s[..j]) + multiset{s[j]} + multiset(s[j + 1..]);
    assert s[..j][i] == s[i];
    assert s[i] in multiset(s[..j]);
  }

  lemma NoRepeatsByCount<T>(s: seq<T>)
    requires forall x :: x in s ==> multiset(s)[x] == 1
    ensures forall i, j :: 0 <= i < j < |s| ==> s[i] != s[j]
  {
    forall i, j | 0 <= i < j < |s| ensures s[i] != s[j] {
      RepeatCounts(s, i, j);
    }
  }

  lemma CountByNoRepeats<T>(s: seq<T>, x: T)
    requires forall i, j :: 0 <= i < j < |s| ==> s[i] != s[j]
    requires x in s
    ensures multiset(s)[x] == 1
  {
    var i :| 0 <= i < |s| && s[i] == x;
    assert s == s[..i] + [s[i]] + s[i + 1..];
    assert x !in multiset(s[..i]) && x !in multiset(s[i + 1..]);
  }

  function Identity(s: string): string { s }

  /** Some enumeration of a finite set, as ranging over a Go map gives. */
  ghost function Enumerate(s: set<string>): seq<string> {
    if s == {} then [] else var x :| x in s; [x] + Enumerate(s - {x})
  }

  lemma {:induction false} EnumerateMultiset(s: set<string>)
    ensures multiset(Enumerate(s)) == multiset(s)
  {
    if s != {} {
      var x :| x in s && Enumerate(s) == [x] + Enumerate(s - {x});
      EnumerateMultiset(s - {x});
      assert multiset(s) == multiset{x} + multiset(s - {x});
    }
  }

  /** The sorted list of a finite set of strings. */
  ghost function SortedSet(s: set<string>): seq<string> {
    SortBy(Enumerate(s), Identity)
  }

  lemma SortedSetProperties(s: set<string>)
    ensures multiset(SortedSet(s)) == multiset(s)
    ensures forall x :: x in SortedSet(s) <==> x in s
    ensures |SortedSet(s)| == |s|
    ensures forall i, j :: 0 <= i < j < |SortedSet(s)| ==> Lt(SortedSet(s)[i], SortedSet(s)[j])
    ensures forall i, j :: 0 <= i < j < |SortedSet(s)| ==> SortedSet(s)[i] != SortedSet(s)[j]
  {
    var t := SortedSet(s);
    EnumerateMultiset(s);
    SortBySorts(Enumerate(s), Identity);
    assert |multiset(t)| == |t| && |multiset(s)| == |s|;
    forall x ensures x in t <==> x in s {
      assert x in t <==> x in multiset(t);
    }
    NoRepeatsByCount(t);
    forall i, j | 0 <= i < j < |t| ensures Lt(t[i], t[j]) {
      assert !Lt(Identity(t[j]), Identity(t[i]));
      LtTotal(t[i], t[j]);
    }
  }

  /** However a set of strings is enumerated, sorting gives SortedSet. */
  lemma SortedSetUnique(s: set<string>, order: seq<string>)
    requires multiset(order) == multiset(s)
    ensures SortBy(order, Identity) == SortedSet(s)
  {
    EnumerateMultiset(s);
    SortByPermutation(order, Enumerate(s), Identity);
  }
}
