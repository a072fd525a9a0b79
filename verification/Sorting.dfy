/** The order in which the Go code sorts, and its library sort.

Every `sort.Slice` call of the modelled files compares one key per element: a
source id, the bytes of an address, a block number, a timestamp, or a pair of
those. All of them are lexicographic comparisons of integer sequences, so one
order and one sort serve the whole project. */
module Sorting {
  import opened Prelude

  /** bytes.Compare(a, b) < 0, and Go's < on strings. */
  predicate LexLess(a: seq<int>, b: seq<int>) {
    b != [] && (a == [] || a[0] < b[0] || (a[0] == b[0] && LexLess(a[1..], b[1..])))
  }

  /** At the first place where they differ a is smaller, or ends. */
  lemma {:induction false} LexLessExactly(a: seq<int>, b: seq<int>)
    ensures LexLess(a, b) <==> exists k :: 0 <= k <= |a| && k < |b| && a[..k] == b[..k] && (k == |a| || a[k] < b[k])
  {
    if LexLess(a, b) { var k := FirstDifference(a, b); }
    if k :| 0 <= k <= |a| && k < |b| && a[..k] == b[..k] && (k == |a| || a[k] < b[k]) { LessFrom(a, b, k); }
  }

  lemma {:induction false} FirstDifference(a: seq<int>, b: seq<int>) returns (k: nat)
    requires LexLess(a, b)
    ensures k <= |a| && k < |b| && a[..k] == b[..k] && (k == |a| || a[k] < b[k])
  {
    if a == [] || a[0] < b[0] {
      k := 0;
    } else {
      var n := FirstDifference(a[1..], b[1..]);
      k := n + 1;
      assert a[..k] == [a[0]] + a[1..][..n] && b[..k] == [b[0]] + b[1..][..n];
    }
  }

  lemma {:induction false} LessFrom(a: seq<int>, b: seq<int>, k: nat)
    requires k <= |a| && k < |b| && a[..k] == b[..k] && (k == |a| || a[k] < b[k])
    ensures LexLess(a, b)
  {
    if k > 0 {
      assert a[0] == a[..k][0] == b[..k][0] == b[0];
      assert a[1..][..k - 1] == a[..k][1..] == b[..k][1..] == b[1..][..k - 1];
      LessFrom(a[1..], b[1..], k - 1);
    }
  }

  lemma {:induction false} LexIrreflexive(a: seq<int>)
    ensures !LexLess(a, a)
  {
    if a != [] { LexIrreflexive(a[1..]); }
  }

  lemma {:induction false} LexTransitive(a: seq<int>, b: seq<int>, c: seq<int>)
    requires LexLess(a, b) && LexLess(b, c)
    ensures LexLess(a, c)
  {
    if a != [] && a[0] == b[0] == c[0] { LexTransitive(a[1..], b[1..], c[1..]); }
  }

  lemma {:induction false} LexTotal(a: seq<int>, b: seq<int>)
    ensures LexLess(a, b) || a == b || LexLess(b, a)
  {
    if a != [] && b != [] && a[0] == b[0] {
      LexTotal(a[1..], b[1..]);
      if a[1..] == b[1..] { assert a == [a[0]] + a[1..] && b == [b[0]] + b[1..]; }
    }
  }

  lemma LexAsymmetric(a: seq<int>, b: seq<int>)
    requires LexLess(a, b)
    ensures !LexLess(b, a)
  {
    if LexLess(b, a) { LexTransitive(a, b, a); }
    LexIrreflexive(a);
  }

  /** `x` may stand before `y` in a sorted sequence. */
  predicate LexAtMost(a: seq<int>, b: seq<int>) { !LexLess(b, a) }

  lemma LexAtMostTransitive(a: seq<int>, b: seq<int>, c: seq<int>)
    requires LexAtMost(a, b) && LexAtMost(b, c)
    ensures LexAtMost(a, c)
  {
    LexTotal(a, b);
    if LexLess(c, a) {
      if a == b { } else { LexTransitive(c, a, b); }
    }
  }

  ghost predicate Ascending<T>(key: T -> seq<int>, s: seq<T>) {
    forall i, j :: 0 <= i < j < |s| ==> LexAtMost(key(s[i]), key(s[j]))
  }

  ghost predicate StrictlyAscending<T>(key: T -> seq<int>, s: seq<T>) {
    forall i, j :: 0 <= i < j < |s| ==> LexLess(key(s[i]), key(s[j]))
  }

  ghost predicate InjectiveOn<T>(key: T -> seq<int>, s: seq<T>) {
    forall x, y :: x in s && y in s && key(x) == key(y) ==> x == y
  }

  function Insert<T>(key: T -> seq<int>, x: T, s: seq<T>): seq<T> {
    if s == [] then [x]
    else if LexLess(key(s[0]), key(x)) then [s[0]] + Insert(key, x, s[1..])
    else [x] + s
  }

  /** sort.Slice on a copy of s. */
  function SortBy<T>(key: T -> seq<int>, s: seq<T>): (r: seq<T>) {
    if s == [] then [] else Insert(key, s[0], SortBy(key, s[1..]))
  }

  lemma {:induction false} InsertContents<T>(key: T -> seq<int>, x: T, s: seq<T>)
    ensures multiset(Insert(key, x, s)) == multiset{x} + multiset(s)
  {
    if s != [] {
      InsertContents(key, x, s[1..]);
      assert s == [s[0]] + s[1..];
    }
  }

  lemma {:induction false} SortContents<T>(key: T -> seq<int>, s: seq<T>)
    ensures multiset(SortBy(key, s)) == multiset(s)
    ensures |SortBy(key, s)| == |s|
  {
    if s != [] {
      SortContents(key, s[1..]);
      InsertContents(key, s[0], SortBy(key, s[1..]));
      assert s == [s[0]] + s[1..];
    }
    assert |multiset(SortBy(key, s))| == |SortBy(key, s)| && |multiset(s)| == |s|;
  }

  lemma SortMember<T>(key: T -> seq<int>, s: seq<T>, x: T)
    ensures x in SortBy(key, s) <==> x in s
  {
    SortContents(key, s);
    assert x in SortBy(key, s) <==> x in multiset(SortBy(key, s));
  }

  lemma {:induction false} InsertAscending<T>(key: T -> seq<int>, x: T, s: seq<T>)
    requires Ascending(key, s)
    ensures Ascending(key, Insert(key, x, s))
  {
    if s == [] {
    } else if LexLess(key(s[0]), key(x)) {
      InsertAscending(key, x, s[1..]);
      InsertContents(key, x, s[1..]);
      var rest := Insert(key, x, s[1..]);
      forall j | 0 <= j < |rest| ensures LexAtMost(key(s[0]), key(rest[j])) {
        assert rest[j] in multiset(rest);
        if rest[j] == x {
          if LexLess(key(x), key(s[0])) { LexTransitive(key(x), key(s[0]), key(x)); LexIrreflexive(key(x)); }
        } else {
          assert rest[j] in multiset(s[1..]);
        }
      }
    } else {
      forall j | 0 <= j < |s| ensures LexAtMost(key(x), key(s[j])) {
        if j > 0 { LexAtMostTransitive(key(x), key(s[0]), key(s[j])); }
      }
    }
  }

  lemma {:induction false} SortAscending<T>(key: T -> seq<int>, s: seq<T>)
    ensures Ascending(key, SortBy(key, s))
  {
    if s != [] {
      SortAscending(key, s[1..]);
      InsertAscending(key, s[0], SortBy(key, s[1..]));
    }
  }

  /** Both of two rearrangements in ascending order start with a least element. */
  lemma AscendingHeads<T>(key: T -> seq<int>, s: seq<T>, t: seq<T>)
    requires Ascending(key, s) && Ascending(key, t)
    requires s != [] && multiset(s) == multiset(t)
    ensures t != [] && t[0] in s && key(s[0]) == key(t[0])
  {
    assert s[0] in multiset(t);
    var i :| 0 <= i < |t| && t[i] == s[0];
    assert t[0] in multiset(s);
    var j :| 0 <= j < |s| && s[j] == t[0];
    LexIrreflexive(key(s[0]));
    LexIrreflexive(key(t[0]));
    LexTotal(key(s[0]), key(t[0]));
  }

  lemma MultisetTails<T>(s: seq<T>, t: seq<T>)
    requires s != [] && t != [] && s[0] == t[0] && multiset(s) == multiset(t)
    ensures multiset(s[1..]) == multiset(t[1..])
  {
    assert s == [s[0]] + s[1..] && t == [t[0]] + t[1..];
    assert multiset(s[1..]) == multiset(s) - multiset{s[0]};
    assert multiset(t[1..]) == multiset(t) - multiset{t[0]};
  }

  /** A sorted arrangement is unique when keys tell the elements apart: what
      `sort.Slice` returns does not depend on the order it was given. */
  lemma {:induction false} AscendingUnique<T>(key: T -> seq<int>, s: seq<T>, t: seq<T>)
    requires Ascending(key, s) && Ascending(key, t)
    requires multiset(s) == multiset(t)
    requires InjectiveOn(key, s)
    ensures s == t
  {
    if s == [] {
      assert |multiset(t)| == |t|;
    } else {
      AscendingHeads(key, s, t);
      assert s[0] == t[0];
      MultisetTails(s, t);
      assert InjectiveOn(key, s[1..]) by {
        forall x, y | x in s[1..] && y in s[1..] && key(x) == key(y) ensures x == y {
          assert x in s && y in s;
        }
      }
      AscendingUnique(key, s[1..], t[1..]);
    }
  }

  lemma SortInjective<T>(key: T -> seq<int>, s: seq<T>)
    requires InjectiveOn(key, s)
    ensures InjectiveOn(key, SortBy(key, s))
  {
    var r := SortBy(key, s);
    forall x, y | x in r && y in r && key(x) == key(y) ensures x == y {
      SortMember(key, s, x);
      SortMember(key, s, y);
    }
  }

  /** Sorting distinct elements with distinguishing keys gives a strict order. */
  lemma SortStrict<T>(key: T -> seq<int>, s: seq<T>)
    requires Distinct(s) && InjectiveOn(key, s)
    ensures StrictlyAscending(key, SortBy(key, s))
    ensures Distinct(SortBy(key, s))
  {
    var r := SortBy(key, s);
    SortAscending(key, s);
    SortContents(key, s);
    MultisetDistinct(s, r);
    SortInjective(key, s);
    forall i, j | 0 <= i < j < |r| ensures LexLess(key(r[i]), key(r[j])) {
      assert r[i] in r && r[j] in r && r[i] != r[j];
      LexTotal(key(r[i]), key(r[j]));
    }
  }

  /** Rearranging a sequence keeps it free of repeats. */
  lemma MultisetDistinct<T>(s: seq<T>, t: seq<T>)
    requires Distinct(s) && multiset(s) == multiset(t)
    ensures Distinct(t)
  {
    forall i, j | 0 <= i < j < |t| ensures t[i] != t[j] {
      if t[i] == t[j] {
        var x := t[i];
        assert t == t[..j] + [t[j]] + t[j + 1..];
        assert x in t[..j];
        assert multiset(t)[x] >= 2;
        DistinctMultiplicity(s, x);
      }
    }
  }

  lemma {:induction false} DistinctMultiplicity<T>(s: seq<T>, x: T)
    requires Distinct(s)
    ensures multiset(s)[x] <= 1
  {
    if s != [] {
      assert s == [s[0]] + s[1..];
      DistinctMultiplicity(s[1..], x);
      if s[0] == x { assert x !in s[1..]; }
    }
  }

  /** Two strictly ascending sequences with the same elements are the same. */
  lemma StrictUnique<T>(key: T -> seq<int>, s: seq<T>, t: seq<T>)
    requires StrictlyAscending(key, s) && StrictlyAscending(key, t)
    requires forall x :: x in s <==> x in t
    requires InjectiveOn(key, s)
    ensures s == t
  {
    StrictIsAscending(key, s);
    StrictIsAscending(key, t);
    forall x ensures multiset(s)[x] == multiset(t)[x] {
      DistinctMultiplicity(s, x);
      DistinctMultiplicity(t, x);
      assert x in multiset(s) <==> x in s;
      assert x in multiset(t) <==> x in t;
    }
    assert multiset(s) == multiset(t);
    AscendingUnique(key, s, t);
  }

  lemma StrictIsAscending<T>(key: T -> seq<int>, s: seq<T>)
    requires StrictlyAscending(key, s)
    ensures Ascending(key, s) && Distinct(s)
  {
    forall i, j | 0 <= i < j < |s| ensures LexAtMost(key(s[i]), key(s[j])) && s[i] != s[j] {
      if LexLess(key(s[j]), key(s[i])) { LexTransitive(key(s[i]), key(s[j]), key(s[i])); }
      LexIrreflexive(key(s[i]));
    }
  }

  /** The least element of a sorted sequence comes first. */
  lemma SortHead<T>(key: T -> seq<int>, s: seq<T>, x: T)
    requires x in s
    ensures SortBy(key, s) != [] && SortBy(key, s)[0] in s
    ensures LexAtMost(key(SortBy(key, s)[0]), key(x))
  {
    var r := SortBy(key, s);
    SortContents(key, s);
    SortAscending(key, s);
    SortMember(key, s, x);
    SortMember(key, s, r[0]);
    var i :| 0 <= i < |r| && r[i] == x;
    LexIrreflexive(key(x));
  }

  /** Keys for the element types that get sorted. */
  function IdKey(id: string): seq<int> { Codes(id) }

  function IntKey(n: int): seq<int> { [n] }

  lemma IdKeyInjective(ids: seq<string>)
    ensures InjectiveOn(IdKey, ids)
  {
    forall x, y | x in ids && y in ids && IdKey(x) == IdKey(y) ensures x == y {
      CodesInjective(x, y);
    }
  }
}
