/** Byte-wise string order and the sorting that Go's `sort` package provides to the rest of the program. */
module Ordering {

  type Id = string

  // Go compares strings byte by byte; on valid UTF-8 that is the order of the code points.
  predicate IdLess(a: Id, b: Id) {
    if b == "" then false
    else if a == "" then true
    else a[0] < b[0] || (a[0] == b[0] && IdLess(a[1..], b[1..]))
  }

  /** `a` and `b` agree on their first `k` characters; then `a` ends, or goes on with a smaller one than `b`. */
  ghost predicate PartsAt(a: Id, b: Id, k: nat) {
    k <= |a| && k < |b| && a[..k] == b[..k] && (k == |a| || a[k] < b[k])
  }

  /** Lexicographic order, by positions. */
  ghost predicate Precedes(a: Id, b: Id) {
    exists k: nat :: PartsAt(a, b, k)
  }

  /** The recursive comparison is the lexicographic order. */
  lemma {:induction false} IdLessIsLexicographic(a: Id, b: Id)
    ensures IdLess(a, b) <==> Precedes(a, b)
  {
    if a == "" || b == "" {
      assert b != "" ==> PartsAt("", b, 0);
    } else {
      IdLessIsLexicographic(a[1..], b[1..]);
      if a[0] < b[0] {
        assert PartsAt(a, b, 0);
      }
      if k: nat :| a[0] == b[0] && PartsAt(a[1..], b[1..], k) {
        assert a[..k + 1] == [a[0]] + a[1..][..k] && b[..k + 1] == [b[0]] + b[1..][..k];
        assert PartsAt(a, b, k + 1);
      }
      if k: nat :| PartsAt(a, b, k) && k > 0 {
        assert a[..k][0] == a[0] && b[..k][0] == b[0];
        assert a[1..][..k - 1] == a[..k][1..] && b[1..][..k - 1] == b[..k][1..];
        assert PartsAt(a[1..], b[1..], k - 1);
      }
    }
  }

  /** Each member precedes all later ones. */
  ghost predicate Lexicographic(s: seq<Id>) {
    forall i, j :: 0 <= i < j < |s| ==> Precedes(s[i], s[j])
  }

  /** The same for a list that may repeat members. */
  ghost predicate LexicographicOrSame(s: seq<Id>) {
    forall i, j :: 0 <= i < j < |s| ==> s[i] == s[j] || Precedes(s[i], s[j])
  }

  /** `less` is a strict weak order: incomparability is an equivalence. */
  ghost predicate StrictWeak<T(!new)>(less: (T, T) -> bool) {
    && (forall x, y :: less(x, y) ==> !less(y, x))
    && (forall x, y, z :: less(x, z) ==> less(x, y) || less(y, z))
  }

  ghost predicate Sorted<T>(less: (T, T) -> bool, s: seq<T>) {
    forall i, j :: 0 <= i < j < |s| ==> !less(s[j], s[i])
  }

  ghost predicate StrictlySorted<T>(less: (T, T) -> bool, s: seq<T>) {
    forall i, j :: 0 <= i < j < |s| ==> less(s[i], s[j])
  }

  ghost predicate Distinct<T>(s: seq<T>) {
    forall i, j :: 0 <= i < j < |s| ==> s[i] != s[j]
  }

  function Insert<T>(less: (T, T) -> bool, x: T, s: seq<T>): (r: seq<T>)
    ensures multiset(r) == multiset{x} + multiset(s)
  {
    if s == [] || less(x, s[0]) then [x] + s
    else
      assert s == [s[0]] + s[1..];
      [s[0]] + Insert(less, x, s[1..])
  }

  /** The library sort: some rearrangement of `s`; `SortIsSorted` says it is in order. */
  function Sort<T>(less: (T, T) -> bool, s: seq<T>): (r: seq<T>)
    ensures multiset(r) == multiset(s)
    ensures |r| == |s|
  {
    if s == [] then []
    else
      assert s == [s[0]] + s[1..];
      assert |Insert(less, s[0], Sort(less, s[1..]))| == |multiset(Insert(less, s[0], Sort(less, s[1..])))|;
      Insert(less, s[0], Sort(less, s[1..]))
  }

  lemma MultisetMembers<T>(r: seq<T>, s: seq<T>)
    requires multiset(r) == multiset(s)
    ensures forall x :: x in r <==> x in s
  {
    forall x ensures x in r <==> x in s {
      assert x in r <==> x in multiset(r);
    }
  }

  lemma {:induction false} InsertKeepsSorted<T(!new)>(less: (T, T) -> bool, x: T, s: seq<T>)
    requires StrictWeak(less) && Sorted(less, s)
    ensures Sorted(less, Insert(less, x, s))
  {
    if s == [] {
    } else if less(x, s[0]) {
      forall j | 0 <= j < |s| ensures !less(s[j], x) {
        assert j > 0 ==> !less(s[j], s[0]);
      }
    } else {
      var rest := Insert(less, x, s[1..]);
      InsertKeepsSorted(less, x, s[1..]);
      forall j | 0 <= j < |rest| ensures !less(rest[j], s[0]) {
        assert rest[j] in multiset(rest);
        assert rest[j] == x || rest[j] in s[1..];
      }
    }
  }

  lemma {:induction false} SortIsSorted<T(!new)>(less: (T, T) -> bool, s: seq<T>)
    requires StrictWeak(less)
    ensures Sorted(less, Sort(less, s))
  {
    if s == [] {
    } else {
      SortIsSorted(less, s[1..]);
      InsertKeepsSorted(less, s[0], Sort(less, s[1..]));
    }
  }

  /** Any two members differ under `less`. */
  ghost predicate Separates<T>(less: (T, T) -> bool, s: seq<T>) {
    forall i, j :: 0 <= i < j < |s| ==> less(s[i], s[j]) || less(s[j], s[i])
  }

  lemma {:induction false} InsertStrictly<T(!new)>(less: (T, T) -> bool, x: T, s: seq<T>)
    requires StrictWeak(less) && StrictlySorted(less, s)
    requires forall y :: y in s ==> less(x, y) || less(y, x)
    ensures StrictlySorted(less, Insert(less, x, s))
  {
    if s == [] {
    } else if less(x, s[0]) {
      forall j | 0 <= j < |s| ensures less(x, s[j]) {
        assert j > 0 ==> less(s[0], s[j]);
      }
    } else {
      var rest := Insert(less, x, s[1..]);
      InsertStrictly(less, x, s[1..]);
      forall j | 0 <= j < |rest| ensures less(s[0], rest[j]) {
        assert rest[j] in multiset(rest);
        assert rest[j] == x || rest[j] in s[1..];
      }
    }
  }

  lemma {:induction false} SortStrictly<T(!new)>(less: (T, T) -> bool, s: seq<T>)
    requires StrictWeak(less) && Separates(less, s)
    ensures StrictlySorted(less, Sort(less, s))
  {
    if s == [] {
    } else {
      SortStrictly(less, s[1..]);
      MultisetMembers(Sort(less, s[1..]), s[1..]);
      forall y | y in s[1..] ensures less(s[0], y) || less(y, s[0]) {
        var j :| 0 <= j < |s[1..]| && s[1..][j] == y;
        assert y == s[j + 1];
      }
      InsertStrictly(less, s[0], Sort(less, s[1..]));
    }
  }

  lemma {:induction false} IdLessAsymmetric(a: Id, b: Id)
    ensures IdLess(a, b) ==> !IdLess(b, a)
  {
    if a == "" || b == "" {
    } else {
      IdLessAsymmetric(a[1..], b[1..]);
    }
  }

  lemma {:induction false} IdLessTotal(a: Id, b: Id)
    ensures a == b || IdLess(a, b) || IdLess(b, a)
  {
    if a == "" || b == "" {
    } else {
      IdLessTotal(a[1..], b[1..]);
      assert a == [a[0]] + a[1..] && b == [b[0]] + b[1..];
    }
  }

  lemma {:induction false} IdLessSplits(a: Id, b: Id, c: Id)
    ensures IdLess(a, c) ==> IdLess(a, b) || IdLess(b, c)
  {
    if a == "" || b == "" || c == "" {
    } else {
      IdLessSplits(a[1..], b[1..], c[1..]);
    }
  }

  /** The string order is a strict total order. */
  lemma IdOrder()
    ensures StrictWeak(IdLess)
    ensures forall a, b :: a == b || IdLess(a, b) || IdLess(b, a)
  {
    forall a, b ensures (IdLess(a, b) ==> !IdLess(b, a)) && (a == b || IdLess(a, b) || IdLess(b, a)) {
      IdLessAsymmetric(a, b);
      IdLessTotal(a, b);
    }
    forall a, b, c ensures IdLess(a, c) ==> IdLess(a, b) || IdLess(b, c) {
      IdLessSplits(a, b, c);
    }
  }

  /** Ascending and free of duplicates. */
  ghost predicate Ascending(s: seq<Id>) {
    StrictlySorted(IdLess, s)
  }

  /** `sort.Strings`. */
  function SortIds(s: seq<Id>): (r: seq<Id>)
    ensures multiset(r) == multiset(s) && |r| == |s|
    ensures forall x :: x in r <==> x in s
    ensures forall i, j :: 0 <= i < j < |r| ==> r[i] == r[j] || IdLess(r[i], r[j])
  {
    IdOrder();
    SortIsSorted(IdLess, s);
    MultisetMembers(Sort(IdLess, s), s);
    Sort(IdLess, s)
  }

  lemma SortIdsLexicographic(s: seq<Id>)
    ensures LexicographicOrSame(SortIds(s))
  {
    var r := SortIds(s);
    forall i, j | 0 <= i < j < |r| ensures r[i] == r[j] || Precedes(r[i], r[j]) {
      IdLessIsLexicographic(r[i], r[j]);
    }
  }

  lemma SortIdsStrictly(s: seq<Id>)
    requires Distinct(s)
    ensures Ascending(SortIds(s))
  {
    IdOrder();
    SortStrictly(IdLess, s);
  }

  /** A strictly sorted listing is determined by the elements it lists. */
  lemma {:induction false} SortedListingUnique<T(!new)>(less: (T, T) -> bool, s: seq<T>, t: seq<T>)
    requires StrictWeak(less)
    requires StrictlySorted(less, s) && StrictlySorted(less, t)
    requires forall x :: x in s <==> x in t
    ensures s == t
  {
    assert s != [] ==> s[0] in t;
    assert t != [] ==> t[0] in s;
    if s == [] {
    } else {
      var a, b := s[0], t[0];
      var i :| 0 <= i < |s| && s[i] == b;
      var j :| 0 <= j < |t| && t[j] == a;
      assert (i > 0 ==> less(a, b)) && (j > 0 ==> less(b, a));
      assert s == [s[0]] + s[1..] && t == [t[0]] + t[1..];
      forall x ensures x in s[1..] <==> x in t[1..] {
        assert x in s[1..] ==> x in s && less(s[0], x);
        assert x in t[1..] ==> x in t && less(t[0], x);
      }
      SortedListingUnique(less, s[1..], t[1..]);
    }
  }

  lemma {:induction false} DistinctCounts<T>(s: seq<T>, x: T)
    requires Distinct(s)
    ensures multiset(s)[x] <= 1
  {
    if s == [] {
    } else {
      DistinctCounts(s[1..], x);
      assert s == [s[0]] + s[1..];
      assert x == s[0] ==> x !in s[1..];
    }
  }

  lemma CountedTwice<T>(r: seq<T>, i: nat, j: nat)
    requires i < j < |r| && r[i] == r[j]
    ensures multiset(r)[r[i]] >= 2
  {
    assert r == r[..j] + r[j..];
    assert r[..j][i] == r[i] && r[j..][0] == r[j];
  }

  /** Rearranging creates no repetitions. */
  lemma PermutationDistinct<T>(r: seq<T>, s: seq<T>)
    requires Distinct(s) && multiset(r) == multiset(s)
    ensures Distinct(r)
  {
    forall i, j | 0 <= i < j < |r| ensures r[i] != r[j] {
      DistinctCounts(s, r[i]);
      if r[i] == r[j] {
        CountedTwice(r, i, j);
      }
    }
  }

  lemma {:induction false} DistinctFits<T>(s: seq<T>, all: set<T>)
    requires Distinct(s) && forall x :: x in s ==> x in all
    ensures |s| <= |all|
    ensures |s| == |all| ==> forall x :: x in all ==> x in s
  {
    if s == [] {
    } else {
      var last := s[|s| - 1];
      forall x | x in s[..|s| - 1] ensures x in all - {last} {
        var i :| 0 <= i < |s| - 1 && s[i] == x;
      }
      assert last in s;
      DistinctFits(s[..|s| - 1], all - {last});
      if |s| == |all| {
        forall x | x in all ensures x in s {
          assert x == last || x in s[..|s| - 1];
        }
      }
    }
  }
}
