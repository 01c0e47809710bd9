/**
 Three-way comparisons, in the Go convention (negative, zero, positive), the
 byte-wise comparison of strings, and the stable sort the planner relies on.
 */
module Orders {

  type Compare<!T> = (T, T) -> int

  /** `cmp` orders all values, possibly with ties. */
  ghost predicate TotalPreorder<T(!new)>(cmp: Compare<T>) {
    && (forall a, b :: cmp(a, b) <= 0 <==> cmp(b, a) >= 0)
    && (forall a, b, c :: cmp(a, b) <= 0 && cmp(b, c) <= 0 ==> cmp(a, c) <= 0)
  }

  /** `cmp` orders all values and ties only equal ones. */
  ghost predicate TotalOrder<T(!new)>(cmp: Compare<T>) {
    && TotalPreorder(cmp)
    && (forall a, b :: cmp(a, b) == 0 ==> a == b)
  }

  ghost predicate Sorted<T>(s: seq<T>, cmp: Compare<T>) {
    forall i, j :: 0 <= i < j < |s| ==> cmp(s[i], s[j]) <= 0
  }

  ghost predicate Distinct<T>(s: seq<T>) {
    forall i, j :: 0 <= i < j < |s| ==> s[i] != s[j]
  }

  ghost function ToSet<T>(s: seq<T>): set<T> {
    set x | x in s
  }

  // ---------------------------------------------------------------- strings

  /** strings.Compare. */
  function CompareStrings(a: string, b: string): (r: int)
    ensures r == 0 <==> a == b
  {
    if a == [] then (if b == [] then 0 else -1)
    else if b == [] then 1
    else if a[0] < b[0] then -1
    else if a[0] > b[0] then 1
    else
      assert a == [a[0]] + a[1..] && b == [b[0]] + b[1..];
      CompareStrings(a[1..], b[1..])
  }

  lemma {:induction false} CompareStringsAntisymmetric(a: string, b: string)
    ensures CompareStrings(a, b) == -CompareStrings(b, a)
    decreases |a|
  {
    if a != [] && b != [] && a[0] == b[0] {
      CompareStringsAntisymmetric(a[1..], b[1..]);
    }
  }

  lemma {:induction false} CompareStringsTransitive(a: string, b: string, c: string)
    requires CompareStrings(a, b) <= 0 && CompareStrings(b, c) <= 0
    ensures CompareStrings(a, c) <= 0
    decreases |a|
  {
    if a != [] && b != [] && c != [] && a[0] == b[0] == c[0] {
      CompareStringsTransitive(a[1..], b[1..], c[1..]);
    }
  }

  lemma CompareStringsTotal()
    ensures TotalOrder(CompareStrings)
  {
    forall a, b ensures CompareStrings(a, b) <= 0 <==> CompareStrings(b, a) >= 0 {
      CompareStringsAntisymmetric(a, b);
    }
    forall a, b, c | CompareStrings(a, b) <= 0 && CompareStrings(b, c) <= 0
      ensures CompareStrings(a, c) <= 0
    {
      CompareStringsTransitive(a, b, c);
    }
  }

  // ----------------------------------------------------------------- sorting

  function Insert<T>(x: T, s: seq<T>, cmp: Compare<T>): (r: seq<T>)
    ensures multiset(r) == multiset(s) + multiset{x}
    ensures |r| == |s| + 1
  {
    if s == [] then [x]
    else if cmp(x, s[0]) <= 0 then
      assert multiset([x] + s) == multiset(s) + multiset{x};
      [x] + s
    else
      assert s == [s[0]] + s[1..];
      [s[0]] + Insert(x, s[1..], cmp)
  }

  /** slices.SortStableFunc: an earlier element stays before a later one that ties with it. */
  function StableSort<T>(s: seq<T>, cmp: Compare<T>): (r: seq<T>)
    ensures multiset(r) == multiset(s)
    ensures |r| == |s|
  {
    if s == [] then []
    else
      assert s == [s[0]] + s[1..];
      Insert(s[0], StableSort(s[1..], cmp), cmp)
  }

  lemma Transitive<T(!new)>(cmp: Compare<T>, a: T, b: T, c: T)
    requires TotalPreorder(cmp) && cmp(a, b) <= 0 && cmp(b, c) <= 0
    ensures cmp(a, c) <= 0
  {
  }

  lemma PrependSorted<T(!new)>(x: T, s: seq<T>, cmp: Compare<T>)
    requires Sorted(s, cmp)
    requires forall j :: 0 <= j < |s| ==> cmp(x, s[j]) <= 0
    ensures Sorted([x] + s, cmp)
  {
  }

  lemma {:induction false} InsertSorted<T(!new)>(x: T, s: seq<T>, cmp: Compare<T>)
    requires TotalPreorder(cmp) && Sorted(s, cmp)
    ensures Sorted(Insert(x, s, cmp), cmp)
  {
    if s == [] {
    } else if cmp(x, s[0]) <= 0 {
      forall j | 0 < j < |s| ensures cmp(x, s[j]) <= 0 {
        Transitive(cmp, x, s[0], s[j]);
      }
      PrependSorted(x, s, cmp);
    } else {
      InsertSorted(x, s[1..], cmp);
      var t := Insert(x, s[1..], cmp);
      forall j | 0 <= j < |t| ensures cmp(s[0], t[j]) <= 0 {
        assert t[j] in multiset(t);
        assert t[j] == x || t[j] in s[1..];
      }
      PrependSorted(s[0], t, cmp);
    }
  }

  lemma {:induction false} StableSortSorted<T(!new)>(s: seq<T>, cmp: Compare<T>)
    requires TotalPreorder(cmp)
    ensures Sorted(StableSort(s, cmp), cmp)
  {
    if s != [] {
      StableSortSorted(s[1..], cmp);
      InsertSorted(s[0], StableSort(s[1..], cmp), cmp);
    }
  }

  // -------------------------------------------------------- sequences as sets

  lemma SameMembers<T>(a: seq<T>, b: seq<T>)
    requires multiset(a) == multiset(b)
    ensures ToSet(a) == ToSet(b)
    ensures forall x :: x in a <==> x in b
  {
    forall x ensures x in a <==> x in b {
      assert x in multiset(a) <==> x in multiset(b);
    }
  }

  lemma {:induction false} DistinctCount<T>(s: seq<T>)
    requires Distinct(s)
    ensures forall x :: x in s ==> multiset(s)[x] == 1
  {
    if s != [] {
      DistinctCount(s[1..]);
      assert s == [s[0]] + s[1..];
    }
  }

  lemma {:induction false} CountDistinct<T>(s: seq<T>)
    requires forall x :: x in s ==> multiset(s)[x] == 1
    ensures Distinct(s)
  {
    if s != [] {
      assert s == [s[0]] + s[1..];
      forall x | x in s[1..] ensures multiset(s[1..])[x] == 1 {
        assert x in s;
      }
      CountDistinct(s[1..]);
      assert multiset(s)[s[0]] == 1 + multiset(s[1..])[s[0]];
    }
  }

  lemma DistinctAppend<T>(a: seq<T>, b: seq<T>)
    requires Distinct(a) && Distinct(b)
    requires forall x :: x in a ==> x !in b
    ensures Distinct(a + b)
  {
    forall i, j | 0 <= i < j < |a + b| ensures (a + b)[i] != (a + b)[j] {
      if i < |a| <= j {
        assert (a + b)[i] in a && (a + b)[j] in b;
      }
    }
  }

  lemma PermutationDistinct<T>(a: seq<T>, b: seq<T>)
    requires Distinct(a) && multiset(a) == multiset(b)
    ensures Distinct(b)
  {
    DistinctCount(a);
    SameMembers(a, b);
    CountDistinct(b);
  }

  lemma {:induction false} DistinctLength<T>(s: seq<T>)
    requires Distinct(s)
    ensures |s| == |ToSet(s)|
  {
    if s != [] {
      DistinctLength(s[1..]);
      assert s == [s[0]] + s[1..];
      assert ToSet(s) == ToSet(s[1..]) + {s[0]};
    }
  }

  // ------------------------------------------------- one sorted list of a set

  lemma NextAtMost<T(!new)>(a: seq<T>, b: seq<T>, n: nat, cmp: Compare<T>)
    requires n < |a| && n < |b| && a[..n] == b[..n] && a[n] in b
    requires TotalOrder(cmp) && Distinct(a) && Sorted(b, cmp)
    ensures cmp(b[n], a[n]) <= 0
  {
  }

  lemma {:induction false} SamePrefix<T(!new)>(a: seq<T>, b: seq<T>, n: nat, cmp: Compare<T>)
    requires TotalOrder(cmp) && Distinct(a) && Distinct(b) && ToSet(a) == ToSet(b)
    requires Sorted(a, cmp) && Sorted(b, cmp)
    requires n <= |a| && n <= |b|
    ensures a[..n] == b[..n]
  {
    if n > 0 {
      SamePrefix(a, b, n - 1, cmp);
      assert a[n - 1] in ToSet(b) && b[n - 1] in ToSet(a);
      NextAtMost(a, b, n - 1, cmp);
      NextAtMost(b, a, n - 1, cmp);
      assert a[..n] == a[..n - 1] + [a[n - 1]] && b[..n] == b[..n - 1] + [b[n - 1]];
    }
  }

  /** Under a total order a set is listed in one way. */
  lemma SortedUnique<T(!new)>(a: seq<T>, b: seq<T>, cmp: Compare<T>)
    requires TotalOrder(cmp) && Distinct(a) && Distinct(b) && ToSet(a) == ToSet(b)
    requires Sorted(a, cmp) && Sorted(b, cmp)
    ensures a == b
  {
    DistinctLength(a);
    DistinctLength(b);
    SamePrefix(a, b, |a|, cmp);
    assert a[..|a|] == a && b[..|b|] == b;
  }
}
