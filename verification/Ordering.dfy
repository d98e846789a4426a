/** Stable sorting by a comparison, and the order of account numbers. */
module Ordering {

  /** A comparison that sorts: nothing comes both before and after another, and ties are transitive. */
  ghost predicate IsWeakOrder<T(!new)>(before: (T, T) -> bool) {
    && (forall a, b :: before(a, b) ==> !before(b, a))
    && (forall a, b, c :: !before(b, a) && !before(c, b) ==> !before(c, a))
  }

  ghost predicate InOrder<T>(s: seq<T>, before: (T, T) -> bool) {
    forall i, j | 0 <= i < j < |s| :: !before(s[j], s[i])
  }

  /** Places an element in front of those it ties with, as it stood in front of them. */
  function Insert<T>(x: T, s: seq<T>, before: (T, T) -> bool): seq<T> {
    if s == [] || !before(s[0], x) then [x] + s else [s[0]] + Insert(x, s[1..], before)
  }

  /** The stable sort of the language's library. */
  function Sorted<T>(s: seq<T>, before: (T, T) -> bool): (r: seq<T>)
    ensures |r| == |s|
  {
    if s == [] then []
    else
      InsertedLength(s[0], Sorted(s[1..], before), before);
      Insert(s[0], Sorted(s[1..], before), before)
  }

  lemma {:induction false} InsertedLength<T>(x: T, s: seq<T>, before: (T, T) -> bool)
    ensures |Insert(x, s, before)| == |s| + 1
  {
    if s != [] && before(s[0], x) {
      InsertedLength(x, s[1..], before);
    }
  }

  lemma {:induction false} InsertPermutes<T>(x: T, s: seq<T>, before: (T, T) -> bool)
    ensures multiset(Insert(x, s, before)) == multiset(s) + multiset{x}
  {
    if s != [] && before(s[0], x) {
      InsertPermutes(x, s[1..], before);
      assert s == [s[0]] + s[1..];
    }
  }

  lemma {:induction false} InsertKeepsOrder<T(!new)>(x: T, s: seq<T>, before: (T, T) -> bool)
    requires IsWeakOrder(before) && InOrder(s, before)
    ensures InOrder(Insert(x, s, before), before)
  {
    if s != [] && before(s[0], x) {
      var tail := Insert(x, s[1..], before);
      InsertKeepsOrder(x, s[1..], before);
      InsertPermutes(x, s[1..], before);
      forall j | 0 <= j < |tail|
        ensures !before(tail[j], s[0])
      {
        assert tail[j] in multiset(s[1..]) + multiset{x};
        if tail[j] != x {
          var k :| 0 <= k < |s[1..]| && s[1..][k] == tail[j];
        }
      }
    } else if s != [] {
      forall j | 0 <= j < |s|
        ensures !before(s[j], x)
      {
        assert !before(s[0], x);
      }
    }
  }

  lemma {:induction false} SortedIsPermutation<T>(s: seq<T>, before: (T, T) -> bool)
    ensures multiset(Sorted(s, before)) == multiset(s)
  {
    if s != [] {
      SortedIsPermutation(s[1..], before);
      InsertPermutes(s[0], Sorted(s[1..], before), before);
      assert s == [s[0]] + s[1..];
    }
  }

  lemma {:induction false} SortedIsInOrder<T(!new)>(s: seq<T>, before: (T, T) -> bool)
    requires IsWeakOrder(before)
    ensures InOrder(Sorted(s, before), before)
  {
    if s != [] {
      SortedIsInOrder(s[1..], before);
      InsertKeepsOrder(s[0], Sorted(s[1..], before), before);
    }
  }

  /** Where an element is inserted: behind those that come before it, and in front of all others. */
  lemma {:induction false} InsertedAt<T>(x: T, s: seq<T>, before: (T, T) -> bool) returns (at: nat)
    ensures at <= |s| && Insert(x, s, before) == s[..at] + [x] + s[at..]
    ensures forall k | 0 <= k < at :: before(s[k], x)
  {
    if s == [] || !before(s[0], x) {
      at := 0;
    } else {
      var i := InsertedAt(x, s[1..], before);
      at := i + 1;
      assert s[..at] == [s[0]] + s[1..][..i] && s[at..] == s[1..][i..];
    }
  }

  lemma Shifted<T>(x: T, s: seq<T>, at: nat, r: seq<T>, p: nat)
    requires at <= |s| && r == s[..at] + [x] + s[at..] && p < |r| && r[p] != x
    ensures p != at && r[p] == s[if p < at then p else p - 1]
  {
  }

  lemma OnlyThere<T>(x: T, s: seq<T>, at: nat, r: seq<T>, p: nat)
    requires at <= |s| && r == s[..at] + [x] + s[at..] && p < |r| && r[p] == x
    requires forall k | 0 <= k < |s| :: s[k] != x
    ensures p == at
  {
  }

  /** Ties keep their order: what stood later and does not come before an earlier one stays behind it. */
  lemma {:induction false} SortedIsStable<T(!new)>(s: seq<T>, before: (T, T) -> bool, i: nat, j: nat, p: nat, q: nat)
    requires Distinct(s) && i < j < |s| && !before(s[j], s[i]) && p < |s| && q < |s|
    requires Sorted(s, before)[p] == s[i] && Sorted(s, before)[q] == s[j]
    ensures p < q
  {
    hide Sorted, Insert, Distinct;
    var x, others, sorted := s[0], s[1..], Sorted(s, before);
    var rest := Sorted(others, before);
    SortedUnfolds(s, before);
    var at := InsertedAt(x, rest, before);
    FirstIsDistinct(s, before);
    Shifted(x, rest, at, sorted, q);
    if i == 0 {
      OnlyThere(x, rest, at, sorted, p);
    } else {
      Shifted(x, rest, at, sorted, p);
      var p', q' := if p < at then p else p - 1, if q < at then q else q - 1;
      assert rest[p'] == others[i - 1] && rest[q'] == others[j - 1];
      SortedIsStable(others, before, i - 1, j - 1, p', q');
    }
  }

  lemma SortedUnfolds<T>(s: seq<T>, before: (T, T) -> bool)
    requires s != []
    ensures Sorted(s, before) == Insert(s[0], Sorted(s[1..], before), before)
  {
  }

  lemma FirstIsDistinct<T(!new)>(s: seq<T>, before: (T, T) -> bool)
    requires Distinct(s) && s != []
    ensures Distinct(s[1..]) && forall k | 0 < k < |s| :: s[k] != s[0]
    ensures forall k | 0 <= k < |s| - 1 :: Sorted(s[1..], before)[k] != s[0]
  {
    hide Sorted;
    SortedHasSameElements(s[1..], before);
    assert s[0] !in s[1..];
    assert forall k | 0 <= k < |s| - 1 :: Sorted(s[1..], before)[k] in Sorted(s[1..], before);
  }

  lemma SortedHasSameElements<T>(s: seq<T>, before: (T, T) -> bool)
    ensures forall x :: x in Sorted(s, before) <==> x in s
  {
    SortedIsPermutation(s, before);
    forall x
      ensures x in Sorted(s, before) <==> x in s
    {
      assert x in multiset(s) <==> x in s;
      assert x in multiset(Sorted(s, before)) <==> x in Sorted(s, before);
    }
  }

  ghost predicate NonIncreasing(s: seq<nat>) {
    forall i, j | 0 <= i < j < |s| :: s[i] >= s[j]
  }

  lemma FirstIsLargest(s: seq<nat>, x: nat)
    requires NonIncreasing(s) && x in multiset(s)
    ensures s != [] && x <= s[0]
  {
    assert x in s;
  }

  lemma MultisetOfRest(s: seq<nat>)
    requires s != []
    ensures multiset(s[1..]) == multiset(s) - multiset{s[0]} && s[0] in multiset(s)
  {
    assert s == [s[0]] + s[1..];
  }

  /** Numbers have one non-increasing arrangement. */
  lemma {:induction false} NonIncreasingIsUnique(s: seq<nat>, t: seq<nat>)
    requires multiset(s) == multiset(t) && NonIncreasing(s) && NonIncreasing(t)
    ensures s == t
  {
    hide NonIncreasing;
    if s == [] {
      assert |multiset(t)| == 0;
    } else {
      FirstsOfSameNumbers(s, t);
      NonIncreasingIsUnique(s[1..], t[1..]);
      assert s == [s[0]] + s[1..] && t == [t[0]] + t[1..];
    }
  }

  lemma FirstsOfSameNumbers(s: seq<nat>, t: seq<nat>)
    requires multiset(s) == multiset(t) && NonIncreasing(s) && NonIncreasing(t) && s != []
    ensures t != [] && s[0] == t[0] && multiset(s[1..]) == multiset(t[1..])
    ensures NonIncreasing(s[1..]) && NonIncreasing(t[1..])
  {
    hide NonIncreasing;
    MultisetOfRest(s);
    FirstIsLargest(t, s[0]);
    MultisetOfRest(t);
    FirstIsLargest(s, t[0]);
    RestIsNonIncreasing(s);
    RestIsNonIncreasing(t);
  }

  lemma RestIsNonIncreasing(s: seq<nat>)
    requires NonIncreasing(s) && s != []
    ensures NonIncreasing(s[1..])
  {
  }

  ghost predicate Distinct<T>(s: seq<T>) {
    forall i, j | 0 <= i < j < |s| :: s[i] != s[j]
  }

  lemma {:induction false} DistinctMeansOnce<T(!new)>(s: seq<T>)
    ensures Distinct(s) <==> forall x :: multiset(s)[x] <= 1
  {
    if s != [] {
      var n := |s| - 1;
      var init, last := s[..n], s[n];
      DistinctMeansOnce(init);
      assert s == init + [last];
      if Distinct(s) {
        assert last !in init;
        assert last !in multiset(init);
      }
      if forall x :: multiset(s)[x] <= 1 {
        assert multiset(s)[last] <= 1;
        assert last !in multiset(init);
        assert forall x :: multiset(init)[x] <= multiset(s)[x];
        assert forall i | 0 <= i < n :: s[i] in init;
      }
    }
  }

  lemma SetOfDistinct<T>(s: seq<T>, a: set<T>)
    requires Distinct(s) && forall x :: x in s <==> x in a
    ensures |s| == |a|
    decreases |s|
  {
    if s == [] {
      assert a == {};
    } else {
      var n := |s| - 1;
      assert s == s[..n] + [s[n]];
      SetOfDistinct(s[..n], a - {s[n]});
    }
  }

  // ------------------------------------------------------------ account numbers

  /** The order of two account numbers as text. */
  predicate Before(a: string, b: string) {
    b != "" && (a == "" || a[0] < b[0] || (a[0] == b[0] && Before(a[1..], b[1..])))
  }

  /** The texts agree up to i, where the first has ended or has the smaller character. */
  ghost predicate FallsShortAt(a: string, b: string, i: nat) {
    i <= |a| && i < |b| && a[..i] == b[..i] && (i == |a| || a[i] < b[i])
  }

  lemma {:induction false} BeforeExactlyWhen(a: string, b: string)
    ensures Before(a, b) <==> exists i: nat :: FallsShortAt(a, b, i)
  {
    if a == "" || b == "" {
      assert b != "" ==> FallsShortAt(a, b, 0);
    } else {
      BeforeExactlyWhen(a[1..], b[1..]);
      if i: nat :| FallsShortAt(a[1..], b[1..], i) && a[0] == b[0] {
        assert a[..i + 1] == [a[0]] + a[1..][..i] && b[..i + 1] == [b[0]] + b[1..][..i];
        assert FallsShortAt(a, b, i + 1);
      }
      if i: nat :| FallsShortAt(a, b, i) {
        if i > 0 {
          assert a[0] == a[..i][0] == b[..i][0] == b[0];
          assert a[1..][..i - 1] == a[..i][1..] && b[1..][..i - 1] == b[..i][1..];
          assert FallsShortAt(a[1..], b[1..], i - 1);
        }
      }
      assert a[0] < b[0] ==> FallsShortAt(a, b, 0);
    }
  }

  lemma {:induction false} BeforeIsTotal(a: string, b: string)
    ensures if a == b then !Before(a, b) && !Before(b, a) else Before(a, b) != Before(b, a)
  {
    if a != "" && b != "" {
      BeforeIsTotal(a[1..], b[1..]);
      assert a == [a[0]] + a[1..] && b == [b[0]] + b[1..];
    }
  }

  lemma {:induction false} BeforeIsTransitive(a: string, b: string, c: string)
    requires Before(a, b) && Before(b, c)
    ensures Before(a, c)
  {
    if a != "" && a[0] == b[0] && b[0] == c[0] {
      BeforeIsTransitive(a[1..], b[1..], c[1..]);
    }
  }

  ghost predicate Ascending(numbers: seq<string>) {
    forall i, j | 0 <= i < j < |numbers| :: Before(numbers[i], numbers[j])
  }

  /** A set of account numbers has one ascending arrangement. */
  lemma {:induction false} AscendingIsUnique(s: seq<string>, t: seq<string>)
    requires Ascending(s) && Ascending(t) && forall x :: x in s <==> x in t
    ensures s == t
  {
    assert s != [] ==> s[0] in t;
    assert t != [] ==> t[0] in s;
    if s != [] {
      FirstsAgree(s, t);
      RestHasNoFirst(s);
      RestHasNoFirst(t);
      AscendingIsUnique(s[1..], t[1..]);
      assert s == [s[0]] + s[1..] && t == [t[0]] + t[1..];
    }
  }

  lemma RestHasNoFirst(s: seq<string>)
    requires Ascending(s) && s != []
    ensures forall x :: x in s[1..] <==> x in s && x != s[0]
  {
    BeforeIsTotal(s[0], s[0]);
    assert s == [s[0]] + s[1..];
    assert forall i | 0 <= i < |s| - 1 :: s[1..][i] == s[i + 1] != s[0];
  }

  lemma FirstsAgree(s: seq<string>, t: seq<string>)
    requires Ascending(s) && Ascending(t) && (forall x :: x in s <==> x in t) && s != [] && t != []
    ensures s[0] == t[0]
  {
    assert s[0] in t && t[0] in s;
    var i :| 0 <= i < |t| && t[i] == s[0];
    var j :| 0 <= j < |s| && s[j] == t[0];
    BeforeIsTotal(s[0], t[0]);
  }
}
