/** Orders, filtering and stable sorting: the meaning of the library sorts the repository calls. */
module Ordering {

  /** Lexicographic order on strings. */
  predicate StringLe(a: string, b: string) {
    |a| == 0 || (|b| > 0 && (a[0] < b[0] || (a[0] == b[0] && StringLe(a[1..], b[1..]))))
  }

  predicate StringLess(a: string, b: string) {
    a != b && StringLe(a, b)
  }

  lemma {:induction false} StringLeTotal(a: string, b: string)
    ensures StringLe(a, b) || StringLe(b, a)
  {
    if |a| > 0 && |b| > 0 && a[0] == b[0] {
      StringLeTotal(a[1..], b[1..]);
    }
  }

  lemma {:induction false} StringLeAntisymmetric(a: string, b: string)
    requires StringLe(a, b) && StringLe(b, a)
    ensures a == b
  {
    if |a| > 0 && |b| > 0 {
      StringLeAntisymmetric(a[1..], b[1..]);
      assert a == [a[0]] + a[1..] && b == [b[0]] + b[1..];
    }
  }

  lemma {:induction false} StringLeTransitive(a: string, b: string, c: string)
    requires StringLe(a, b) && StringLe(b, c)
    ensures StringLe(a, c)
  {
    if |a| > 0 && a[0] == b[0] && b[0] == c[0] {
      StringLeTransitive(a[1..], b[1..], c[1..]);
    }
  }

  /** `a` and `b` agree up to `n`, where `a` ends or has the lesser character. */
  ghost predicate LessAt(a: string, b: string, n: nat) {
    n <= |a| && n < |b| && a[..n] == b[..n] && (n == |a| || a[n] < b[n])
  }

  lemma LessAtOneOn(a: string, b: string, n: nat)
    requires |a| > 0 && |b| > 0 && a[0] == b[0]
    ensures LessAt(a, b, n + 1) <==> LessAt(a[1..], b[1..], n)
  {
    if n <= |a[1..]| && n < |b[1..]| {
      assert a[..n + 1] == [a[0]] + a[1..][..n] && b[..n + 1] == [b[0]] + b[1..][..n];
      assert a[1..][..n] == a[..n + 1][1..] && b[1..][..n] == b[..n + 1][1..];
    }
  }

  /** The order of strings: the first difference decides, and a string comes before its extensions. */
  lemma {:induction false} StringLessIff(a: string, b: string)
    ensures StringLess(a, b) <==> exists n: nat :: LessAt(a, b, n)
  {
    if |a| == 0 || |b| == 0 || a[0] != b[0] {
      assert LessAt(a, b, 0) <==> StringLess(a, b);
    } else {
      StringLessIff(a[1..], b[1..]);
      assert a == [a[0]] + a[1..] && b == [b[0]] + b[1..];
      if n: nat :| LessAt(a[1..], b[1..], n) {
        LessAtOneOn(a, b, n);
      }
      if n: nat :| LessAt(a, b, n) {
        assert n > 0;
        LessAtOneOn(a, b, n - 1);
      }
    }
  }

  /** `le` is total and transitive; two different values may still tie. */
  ghost predicate Ranking<T(!new)>(le: (T, T) -> bool) {
    && (forall x, y :: le(x, y) || le(y, x))
    && (forall x, y, z :: le(x, y) && le(y, z) ==> le(x, z))
  }

  lemma StringLeRanking()
    ensures Ranking(StringLe)
  {
    forall x, y ensures StringLe(x, y) || StringLe(y, x) {
      StringLeTotal(x, y);
    }
    forall x, y, z | StringLe(x, y) && StringLe(y, z) ensures StringLe(x, z) {
      StringLeTransitive(x, y, z);
    }
  }

  ghost predicate Sorted<T>(le: (T, T) -> bool, s: seq<T>) {
    forall i, j :: 0 <= i < j < |s| ==> le(s[i], s[j])
  }

  function Insert<T>(le: (T, T) -> bool, x: T, s: seq<T>): (r: seq<T>)
    ensures multiset(r) == multiset(s) + multiset{x}
  {
    if |s| == 0 || le(x, s[0]) then [x] + s
    else
      assert s == [s[0]] + s[1..];
      [s[0]] + Insert(le, x, s[1..])
  }

  /** A stable sort: ties keep their order of appearance. */
  function Sort<T>(le: (T, T) -> bool, s: seq<T>): (r: seq<T>)
    ensures multiset(r) == multiset(s)
    ensures |r| == |s|
  {
    if |s| == 0 then []
    else
      assert s == [s[0]] + s[1..];
      var r := Insert(le, s[0], Sort(le, s[1..]));
      assert |r| == |multiset(r)|;
      assert |s| == |multiset(s)|;
      r
  }

  lemma {:induction false} InsertSorted<T(!new)>(le: (T, T) -> bool, x: T, s: seq<T>)
    requires Ranking(le) && Sorted(le, s)
    ensures Sorted(le, Insert(le, x, s))
  {
    if |s| > 0 && !le(x, s[0]) {
      InsertSorted(le, x, s[1..]);
      var r := Insert(le, x, s[1..]);
      forall i | 0 <= i < |r| ensures le(s[0], r[i]) {
        assert r[i] in multiset(r);
        assert r[i] in s[1..] || r[i] == x;
      }
    }
  }

  lemma {:induction false} SortSorts<T(!new)>(le: (T, T) -> bool, s: seq<T>)
    requires Ranking(le)
    ensures Sorted(le, Sort(le, s))
  {
    if |s| > 0 {
      SortSorts(le, s[1..]);
      InsertSorted(le, s[0], Sort(le, s[1..]));
    }
  }

  // ---------------------------------------------------------------- what a list keeps

  /** The elements that satisfy `keep`, in order. */
  function Filter<T>(keep: T -> bool, s: seq<T>): seq<T> {
    if |s| == 0 then []
    else
      var before := Filter(keep, s[..|s| - 1]);
      if keep(s[|s| - 1]) then before + [s[|s| - 1]] else before
  }

  lemma {:induction false} FilterMembers<T>(keep: T -> bool, s: seq<T>)
    ensures forall x :: x in Filter(keep, s) <==> x in s && keep(x)
  {
    if |s| > 0 {
      FilterMembers(keep, s[..|s| - 1]);
      assert s == s[..|s| - 1] + [s[|s| - 1]];
    }
  }

  lemma {:induction false} FilterJoin<T>(keep: T -> bool, s: seq<T>, t: seq<T>)
    ensures Filter(keep, s + t) == Filter(keep, s) + Filter(keep, t)
  {
    if |t| == 0 {
      assert s + t == s;
    } else {
      FilterJoin(keep, s, t[..|t| - 1]);
      assert (s + t)[..|s + t| - 1] == s + t[..|t| - 1];
    }
  }

  lemma {:induction false} FilterNone<T>(keep: T -> bool, s: seq<T>)
    requires forall x :: x in s ==> !keep(x)
    ensures Filter(keep, s) == []
  {
    if |s| > 0 {
      FilterNone(keep, s[..|s| - 1]);
      assert s[|s| - 1] in s;
    }
  }

  lemma {:induction false} FilterEvery<T>(keep: T -> bool, s: seq<T>)
    requires forall x :: x in s ==> keep(x)
    ensures Filter(keep, s) == s
  {
    if |s| > 0 {
      FilterEvery(keep, s[..|s| - 1]);
      assert s[|s| - 1] in s;
    }
  }

  // ---------------------------------------------------------------- ties keep their order

  /** Some occurrence of `x` comes before some occurrence of `y`. */
  ghost predicate Precedes<T>(s: seq<T>, x: T, y: T) {
    exists i, j :: 0 <= i < j < |s| && s[i] == x && s[j] == y
  }

  lemma PrecedesLater<T>(first: T, s: seq<T>, x: T, y: T)
    requires Precedes(s, x, y)
    ensures Precedes([first] + s, x, y)
  {
    var i, j :| 0 <= i < j < |s| && s[i] == x && s[j] == y;
    var r := [first] + s;
    assert r[i + 1] == x && r[j + 1] == y;
  }

  lemma PrecedesFirst<T>(first: T, s: seq<T>, y: T)
    requires y in s
    ensures Precedes([first] + s, first, y)
  {
    var j :| 0 <= j < |s| && s[j] == y;
    var r := [first] + s;
    assert r[0] == first && r[j + 1] == y;
  }

  lemma {:induction false} InsertKeepsOrder<T>(le: (T, T) -> bool, z: T, s: seq<T>, x: T, y: T)
    requires Precedes(s, x, y)
    ensures Precedes(Insert(le, z, s), x, y)
  {
    if |s| == 0 || le(z, s[0]) {
      PrecedesLater(z, s, x, y);
    } else {
      PrecedesInParts(s, x, y);
      if Precedes(s[1..], x, y) {
        InsertKeepsOrder(le, z, s[1..], x, y);
        PrecedesLater(s[0], Insert(le, z, s[1..]), x, y);
      } else {
        assert y in multiset(Insert(le, z, s[1..]));
        PrecedesFirst(s[0], Insert(le, z, s[1..]), y);
      }
    }
  }

  lemma PrecedesInParts<T>(s: seq<T>, x: T, y: T)
    requires Precedes(s, x, y)
    ensures |s| > 0 && (Precedes(s[1..], x, y) || (s[0] == x && y in s[1..]))
  {
    var i, j :| 0 <= i < j < |s| && s[i] == x && s[j] == y;
    assert s[1..][j - 1] == y;
    assert i > 0 ==> s[1..][i - 1] == x;
  }

  lemma {:induction false} InsertGoesBefore<T>(le: (T, T) -> bool, x: T, s: seq<T>, y: T)
    requires y in s && le(x, y)
    ensures Precedes(Insert(le, x, s), x, y)
  {
    if le(x, s[0]) {
      PrecedesFirst(x, s, y);
    } else {
      assert y in s[1..];
      InsertGoesBefore(le, x, s[1..], y);
      PrecedesLater(s[0], Insert(le, x, s[1..]), x, y);
    }
  }

  /** What need not come after stays in its place. */
  lemma {:induction false} SortKeepsOrder<T>(le: (T, T) -> bool, s: seq<T>, x: T, y: T)
    requires Precedes(s, x, y) && le(x, y)
    ensures Precedes(Sort(le, s), x, y)
  {
    var rest := s[1..];
    PrecedesInParts(s, x, y);
    if Precedes(rest, x, y) {
      SortKeepsOrder(le, rest, x, y);
      InsertKeepsOrder(le, s[0], Sort(le, rest), x, y);
    } else {
      SameElements(rest, Sort(le, rest));
      InsertGoesBefore(le, x, Sort(le, rest), y);
    }
  }

  /** The sorted list begins with the earliest of the best. */
  lemma {:induction false} SortedHead<T(!new)>(le: (T, T) -> bool, s: seq<T>) returns (i: nat)
    requires Ranking(le) && |s| > 0
    ensures i < |s| && Sort(le, s)[0] == s[i]
    ensures forall j :: 0 <= j < |s| ==> le(s[i], s[j])
    ensures forall j :: 0 <= j < i ==> !le(s[j], s[i])
  {
    if |s| == 1 {
      return 0;
    }
    var rest := s[1..];
    var k := SortedHead(le, rest);
    if le(s[0], rest[k]) {
      forall j | 0 <= j < |s| ensures le(s[0], s[j]) {
        assert j > 0 ==> s[j] == rest[j - 1];
      }
      return 0;
    }
    forall j | 0 <= j < |s| ensures le(rest[k], s[j]) {
      assert j > 0 ==> s[j] == rest[j - 1];
    }
    forall j | 0 <= j < k + 1 ensures !le(s[j], rest[k]) {
      assert j > 0 ==> s[j] == rest[j - 1];
    }
    return k + 1;
  }

  lemma SortedHeadsAgree<T>(le: (T, T) -> bool, a: seq<T>, b: seq<T>)
    requires Sorted(le, a) && Sorted(le, b) && |a| > 0 && |b| > 0
    requires a[0] in b && b[0] in a && (le(a[0], b[0]) && le(b[0], a[0]) ==> a[0] == b[0])
    ensures a[0] == b[0]
  {
    var i :| 0 <= i < |b| && b[i] == a[0];
    var j :| 0 <= j < |a| && a[j] == b[0];
  }

  lemma TailMultiset<T>(a: seq<T>, b: seq<T>)
    requires |a| > 0 && |b| > 0 && a[0] == b[0] && multiset(a) == multiset(b)
    ensures multiset(a[1..]) == multiset(b[1..])
  {
    assert a == [a[0]] + a[1..] && b == [b[0]] + b[1..];
    assert multiset(a[1..]) == multiset(a) - multiset{a[0]};
    assert multiset(b[1..]) == multiset(b) - multiset{b[0]};
  }

  /** Elements that never tie leave only one sorted arrangement, whatever order they arrive in. */
  lemma {:induction false} SortedIsUnique<T>(le: (T, T) -> bool, a: seq<T>, b: seq<T>)
    requires Sorted(le, a) && Sorted(le, b) && multiset(a) == multiset(b)
    requires forall x, y :: x in a && y in a && le(x, y) && le(y, x) ==> x == y
    ensures a == b
    decreases |a|
  {
    assert |a| == |multiset(a)| == |multiset(b)| == |b|;
    if |a| == 0 {
      assert a == b;
    } else {
      SameElements(a, b);
      assert a[0] in a && b[0] in b;
      SortedHeadsAgree(le, a, b);
      TailMultiset(a, b);
      SortedIsUnique(le, a[1..], b[1..]);
      assert a == [a[0]] + a[1..] && b == [b[0]] + b[1..];
    }
  }

  lemma SameElements<T>(a: seq<T>, b: seq<T>)
    requires multiset(a) == multiset(b)
    ensures forall x :: x in a <==> x in b
  {
    forall x ensures x in a <==> x in b {
      assert x in a <==> x in multiset(a);
      assert x in b <==> x in multiset(b);
    }
  }

  ghost predicate Distinct<T>(s: seq<T>) {
    forall i, j :: 0 <= i < j < |s| ==> s[i] != s[j]
  }

  lemma DistinctPermutation<T>(a: seq<T>, b: seq<T>)
    requires multiset(a) == multiset(b) && Distinct(a)
    ensures Distinct(b)
  {
    forall i, j | 0 <= i < j < |b| ensures b[i] != b[j] {
      if b[i] == b[j] {
        assert b == b[..i] + [b[i]] + b[i + 1..j] + [b[j]] + b[j + 1..];
        assert multiset(b)[b[i]] >= 2;
        DistinctCountsOnce(a, b[i]);
      }
    }
  }

  lemma {:induction false} DistinctCountsOnce<T>(a: seq<T>, x: T)
    requires Distinct(a)
    ensures multiset(a)[x] <= 1
  {
    if |a| > 0 {
      assert a == [a[0]] + a[1..];
      DistinctCountsOnce(a[1..], x);
      if a[0] == x {
        assert x !in a[1..];
        assert multiset(a[1..])[x] == 0;
      }
    }
  }

  /** No two elements share a key. */
  ghost predicate KeysDistinct<T, K>(key: T -> K, s: seq<T>) {
    forall i, j :: 0 <= i < j < |s| ==> key(s[i]) != key(s[j])
  }

  lemma KeysDistinctPermutation<T, K>(key: T -> K, a: seq<T>, b: seq<T>)
    requires multiset(a) == multiset(b) && KeysDistinct(key, a)
    ensures KeysDistinct(key, b)
  {
    DistinctPermutation(a, b);
    SameElements(a, b);
    forall i, j | 0 <= i < j < |b| ensures key(b[i]) != key(b[j]) {
      assert b[i] in a && b[j] in a;
    }
  }

  /** Two sorted lists of the same values without repetition are the same list. */
  lemma ListingIsUnique<T>(le: (T, T) -> bool, a: seq<T>, b: seq<T>)
    requires Sorted(le, a) && Sorted(le, b) && Distinct(a) && Distinct(b)
    requires forall x :: x in a <==> x in b
    requires forall x, y :: x in a && y in a && le(x, y) && le(y, x) ==> x == y
    ensures a == b
  {
    SameMultiset(a, b);
    SortedIsUnique(le, a, b);
  }

  lemma SameMultiset<T>(a: seq<T>, b: seq<T>)
    requires Distinct(a) && Distinct(b) && forall x :: x in a <==> x in b
    ensures multiset(a) == multiset(b) && |a| == |b|
  {
    forall x ensures multiset(a)[x] == multiset(b)[x] {
      DistinctCountsOnce(a, x);
      DistinctCountsOnce(b, x);
      assert x in a <==> x in multiset(a);
      assert x in b <==> x in multiset(b);
    }
    assert multiset(a) == multiset(b);
    assert |multiset(a)| == |a| && |multiset(b)| == |b|;
  }
}
