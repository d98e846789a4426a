/** What of the ring's selection depends on the order the entities arrive in, and what does not. */
module RingLaws {
  import opened Wrappers
  import opened Ordering
  import opened RingSelection

  // ------------------------------------------------------------ rearranged input

  lemma {:induction false} BookedCounts(entities: seq<Entity>, number: string, x: Entity)
    ensures multiset(Booked(entities, number))[x] == if AccountOf(x) == Some(number) then multiset(entities)[x] else 0
  {
    if entities != [] {
      var n := |entities| - 1;
      BookedCounts(entities[..n], number, x);
      assert entities == entities[..n] + [entities[n]];
    }
  }

  lemma BookedPermutes(a: seq<Entity>, b: seq<Entity>, number: string)
    requires multiset(a) == multiset(b)
    ensures multiset(Booked(a, number)) == multiset(Booked(b, number))
  {
    hide Booked;
    forall x
      ensures multiset(Booked(a, number))[x] == multiset(Booked(b, number))[x]
    {
      BookedCounts(a, number, x);
      BookedCounts(b, number, x);
    }
  }

  function Removed(s: seq<Entity>, i: nat): seq<Entity>
    requires i < |s|
  {
    s[..i] + s[i + 1..]
  }

  lemma MultisetOfRemoval(s: seq<Entity>, i: nat)
    requires i < |s|
    ensures multiset(Removed(s, i)) == multiset(s) - multiset{s[i]}
  {
    assert s == s[..i] + [s[i]] + s[i + 1..];
  }

  lemma {:induction false} SumOfRemoval(s: seq<Entity>, i: nat, basis: Basis)
    requires i < |s|
    ensures SumMagnitude(Removed(s, i), basis) == SumMagnitude(s, basis) - Magnitude(s[i], basis)
  {
    var n := |s| - 1;
    if i == n {
      assert Removed(s, i) == s[..n];
    } else {
      SumOfRemoval(s[..n], i, basis);
      assert Removed(s, i)[..n - 1] == Removed(s[..n], i);
    }
  }

  /** An arrangement of the same entities has the last one of s somewhere. */
  lemma FindLast(s: seq<Entity>, t: seq<Entity>) returns (i: nat)
    requires multiset(s) == multiset(t) && s != []
    ensures i < |t| && t[i] == s[|s| - 1] && multiset(s[..|s| - 1]) == multiset(Removed(t, i))
  {
    var n := |s| - 1;
    assert s == s[..n] + [s[n]];
    assert s[n] in multiset(t);
    i :| 0 <= i < |t| && t[i] == s[n];
    MultisetOfRemoval(t, i);
  }

  lemma {:induction false} SumPermutes(s: seq<Entity>, t: seq<Entity>, basis: Basis)
    requires multiset(s) == multiset(t)
    ensures SumMagnitude(s, basis) == SumMagnitude(t, basis)
  {
    hide Removed;
    assert |s| == |multiset(s)| == |multiset(t)| == |t|;
    if s != [] {
      var i := FindLast(s, t);
      SumOfRemoval(t, i, basis);
      SumPermutes(s[..|s| - 1], Removed(t, i), basis);
    }
  }

  lemma SameWeights(a: seq<Entity>, b: seq<Entity>, basis: Basis, number: string)
    requires multiset(a) == multiset(b)
    ensures WeightOf(a, basis, number) == WeightOf(b, basis, number)
    ensures |Booked(a, number)| == |Booked(b, number)|
  {
    hide Booked, SumMagnitude;
    BookedPermutes(a, b, number);
    SumPermutes(Booked(a, number), Booked(b, number), basis);
    assert |Booked(a, number)| == |multiset(Booked(a, number))|;
    assert |Booked(b, number)| == |multiset(Booked(b, number))|;
  }

  lemma SameBasis(a: seq<Entity>, b: seq<Entity>)
    requires multiset(a) == multiset(b)
    ensures Accounts(a) == Accounts(b) && BasisOf(a) == BasisOf(b)
  {
    hide WeightOf;
    forall e
      ensures e in a <==> e in b
    {
      assert e in multiset(a) <==> e in multiset(b);
    }
    forall n
      ensures WeightOf(a, Amount, n) == WeightOf(b, Amount, n)
    {
      SameWeights(a, b, Amount, n);
    }
  }

  /** There is one way to show the top accounts. */
  lemma TopIsUnique(a: seq<Entity>, b: seq<Entity>, basis: Basis, maxAccounts: nat, s: seq<string>, t: seq<string>)
    requires multiset(a) == multiset(b)
    requires IsTop(a, basis, maxAccounts, s) && IsTop(b, basis, maxAccounts, t)
    ensures s == t
  {
    hide WeightOf;
    SameBasis(a, b);
    SameSet(a, b, basis, maxAccounts, s, t);
    SameSet(b, a, basis, maxAccounts, t, s);
    AscendingIsUnique(s, t);
  }

  lemma AscendingIsDistinct(s: seq<string>)
    requires Ascending(s)
    ensures Distinct(s) && |set n | n in s| == |s|
  {
    forall i, j | 0 <= i < j < |s|
      ensures s[i] != s[j]
    {
      BeforeIsTotal(s[i], s[i]);
    }
    SetOfDistinct(s, set n | n in s);
  }

  lemma SameSet(a: seq<Entity>, b: seq<Entity>, basis: Basis, maxAccounts: nat, s: seq<string>, t: seq<string>)
    requires multiset(a) == multiset(b)
    requires IsTop(a, basis, maxAccounts, s) && IsTop(b, basis, maxAccounts, t)
    ensures forall n | n in s :: n in t
  {
    hide WeightOf;
    SameBasis(a, b);
    AscendingIsDistinct(s);
    AscendingIsDistinct(t);
    var x, y := set n | n in s, set n | n in t;
    if n :| n in s && n !in t {
      var m := MissingInReturn(x, y, n);
      SameWeights(a, b, basis, n);
      SameWeights(a, b, basis, m);
      BeforeIsTotal(n, m);
      assert false;
    }
  }

  lemma MissingInReturn(x: set<string>, y: set<string>, n: string) returns (m: string)
    requires |x| == |y| && n in x - y
    ensures m in y - x
  {
    assert |x - y| == |x| - |x * y| && |y - x| == |y| - |x * y| by {
      assert x == (x - y) + x * y && y == (y - x) + x * y;
    }
    assert |y - x| > 0;
    m :| m in y - x;
  }

  // ------------------------------------------------------------ magnitudes

  lemma MagnitudesOfRemoval(s: seq<Entity>, i: nat, basis: Basis)
    requires i < |s|
    ensures multiset(Magnitudes(s, basis)) ==
              multiset(Magnitudes(Removed(s, i), basis)) + multiset{Magnitude(s[i], basis)}
  {
    var m := Magnitudes(s, basis);
    assert Magnitudes(Removed(s, i), basis) == m[..i] + m[i + 1..];
    assert m == m[..i] + [m[i]] + m[i + 1..];
  }

  lemma {:induction false} MagnitudesPermute(s: seq<Entity>, t: seq<Entity>, basis: Basis)
    requires multiset(s) == multiset(t)
    ensures multiset(Magnitudes(s, basis)) == multiset(Magnitudes(t, basis))
  {
    hide Magnitudes, Removed;
    if s == [] {
      assert |t| == |multiset(t)| == 0;
    } else {
      var n := |s| - 1;
      var i := FindLast(s, t);
      MagnitudesPermute(s[..n], Removed(t, i), basis);
      MagnitudesOfRemoval(t, i, basis);
      MagnitudesOfRemoval(s, n, basis);
      RemovedLast(s);
    }
  }

  lemma RemovedLast(s: seq<Entity>)
    requires s != []
    ensures Removed(s, |s| - 1) == s[..|s| - 1]
  {
  }

  lemma SortedMagnitudes(s: seq<Entity>, t: seq<Entity>, basis: Basis)
    requires multiset(s) == multiset(t)
    ensures Magnitudes(Sorted(s, Larger(basis)), basis) == Magnitudes(Sorted(t, Larger(basis)), basis)
  {
    hide Sorted;
    var u, v := Sorted(s, Larger(basis)), Sorted(t, Larger(basis));
    ComparisonsSort(basis);
    SortedIsPermutation(s, Larger(basis));
    SortedIsPermutation(t, Larger(basis));
    SortedIsInOrder(s, Larger(basis));
    SortedIsInOrder(t, Larger(basis));
    MagnitudesPermute(u, v, basis);
    NonIncreasingIsUnique(Magnitudes(u, basis), Magnitudes(v, basis));
  }

  lemma ShownMagnitudes(s: seq<Entity>, t: seq<Entity>, basis: Basis, k: nat)
    requires multiset(s) == multiset(t)
    ensures Magnitudes(Shown(s, basis, k), basis) == Magnitudes(Shown(t, basis, k), basis)
  {
    hide Sorted;
    SortedMagnitudes(s, t, basis);
    var u, v := Sorted(s, Larger(basis)), Sorted(t, Larger(basis));
    assert |u| == |Magnitudes(u, basis)| == |v|;
    if k < |u| {
      assert Magnitudes(u[..k], basis) == Magnitudes(u, basis)[..k];
      assert Magnitudes(v[..k], basis) == Magnitudes(v, basis)[..k];
    }
  }

  lemma {:induction false} SameTotals(g: seq<RingGroup>, h: seq<RingGroup>, basis: Basis)
    requires |g| == |h|
    requires forall i | 0 <= i < |g| ::
               g[i].weight == h[i].weight && Magnitudes(g[i].items, basis) == Magnitudes(h[i].items, basis)
    ensures TotalWeight(g) == TotalWeight(h) && AllMagnitudes(g, basis) == AllMagnitudes(h, basis)
  {
    if g != [] {
      SameTotals(g[..|g| - 1], h[..|h| - 1], basis);
    }
  }

  /**
   However the entities are arranged, the ring has the same unit, the same accounts in the same order, the same
   weights and node sizes, and the same totals. Only which payee of several equally large ones stands where may vary.
   */
  lemma PermutationInvariance(a: seq<Entity>, b: seq<Entity>, maxAccounts: nat, maxPerAccount: nat, r: Selection,
                              s: Selection)
    requires multiset(a) == multiset(b)
    requires IsSelection(a, maxAccounts, maxPerAccount, r) && IsSelection(b, maxAccounts, maxPerAccount, s)
    ensures r.basis == s.basis && Numbers(r.groups) == Numbers(s.groups)
    ensures forall i | 0 <= i < |r.groups| ::
              && r.groups[i].weight == s.groups[i].weight
              && Magnitudes(r.groups[i].items, r.basis) == Magnitudes(s.groups[i].items, r.basis)
    ensures r.truncated == s.truncated && r.totalWeight == s.totalWeight && r.maxMagnitude == s.maxMagnitude
  {
    hide WeightOf, Booked, BasisOf, Accounts, Shown, IsTop, TotalWeight, AllMagnitudes;
    SameBasis(a, b);
    TopIsUnique(a, b, r.basis, maxAccounts, Numbers(r.groups), Numbers(s.groups));
    forall i | 0 <= i < |r.groups|
      ensures r.groups[i].number == s.groups[i].number && r.groups[i].weight == s.groups[i].weight
      ensures Magnitudes(r.groups[i].items, r.basis) == Magnitudes(s.groups[i].items, r.basis)
      ensures |Booked(a, r.groups[i].number)| == |Booked(b, s.groups[i].number)|
    {
      var n := Numbers(r.groups)[i];
      assert n == Numbers(s.groups)[i];
      SameWeights(a, b, r.basis, n);
      BookedPermutes(a, b, n);
      ShownMagnitudes(Booked(a, n), Booked(b, n), r.basis, maxPerAccount);
    }
    SameTotals(r.groups, s.groups, r.basis);
  }

  // ------------------------------------------------------------ one unit

  /** The same accounts and amounts, entity by entity; keys and numbers of bookings may differ. */
  ghost predicate SameAmounts(a: seq<Entity>, b: seq<Entity>) {
    |a| == |b| && forall i | 0 <= i < |a| :: a[i].account == b[i].account && a[i].amount == b[i].amount
  }

  lemma {:induction false} SameKronor(a: seq<Entity>, b: seq<Entity>, number: string)
    requires SameAmounts(a, b)
    ensures KronorOn(a, number) == KronorOn(b, number)
  {
    if a != [] {
      SameKronor(a[..|a| - 1], b[..|b| - 1], number);
    }
  }

  lemma SameAccounts(a: seq<Entity>, b: seq<Entity>)
    requires SameAmounts(a, b)
    ensures Accounts(a) == Accounts(b)
    ensures forall n | n in Accounts(a) :: WeightOf(a, Amount, n) == WeightOf(b, Amount, n)
  {
    hide WeightOf;
    forall i | 0 <= i < |a|
      ensures a[i] in a && b[i] in b && AccountOf(a[i]) == AccountOf(b[i])
    {
    }
    assert Accounts(a) == Accounts(b);
    AccountsAreNamed(a);
    forall n | n in Accounts(a)
      ensures WeightOf(a, Amount, n) == WeightOf(b, Amount, n)
    {
      SameKronor(a, b, n);
      WeightIsMeasured(a, n);
      WeightIsMeasured(b, n);
    }
  }

  /** A ring measured in kronor has the same accounts and weights however often the entities were booked. */
  lemma AmountsIgnoreBookings(a: seq<Entity>, b: seq<Entity>, maxAccounts: nat, maxPerAccount: nat, r: Selection,
                              s: Selection)
    requires SameAmounts(a, b) && r.basis == Amount
    requires IsSelection(a, maxAccounts, maxPerAccount, r) && IsSelection(b, maxAccounts, maxPerAccount, s)
    ensures s.basis == Amount && Numbers(s.groups) == Numbers(r.groups)
    ensures forall i | 0 <= i < |r.groups| :: s.groups[i].weight == r.groups[i].weight
    ensures s.totalWeight == r.totalWeight
  {
    hide WeightOf, Accounts, AllMagnitudes, Booked, TotalWeight;
    SameAccounts(a, b);
    assert s.basis == Amount;
    TopOfSameAccounts(a, b, maxAccounts, Numbers(s.groups));
    TopIsUnique(a, a, Amount, maxAccounts, Numbers(r.groups), Numbers(s.groups));
    forall i | 0 <= i < |r.groups|
      ensures s.groups[i].weight == r.groups[i].weight
    {
      assert Numbers(r.groups)[i] == Numbers(s.groups)[i];
      assert Numbers(r.groups)[i] in Numbers(r.groups);
    }
    SameWeightsSameTotal(r.groups, s.groups);
  }

  lemma TopOfSameAccounts(a: seq<Entity>, b: seq<Entity>, maxAccounts: nat, numbers: seq<string>)
    requires Accounts(a) == Accounts(b)
    requires forall n | n in Accounts(a) :: WeightOf(a, Amount, n) == WeightOf(b, Amount, n)
    requires IsTop(b, Amount, maxAccounts, numbers)
    ensures IsTop(a, Amount, maxAccounts, numbers)
  {
    hide WeightOf, Accounts;
  }

  lemma {:induction false} SameWeightsSameTotal(g: seq<RingGroup>, h: seq<RingGroup>)
    requires |g| == |h| && forall i | 0 <= i < |g| :: h[i].weight == g[i].weight
    ensures TotalWeight(g) == TotalWeight(h)
  {
    if g != [] {
      SameWeightsSameTotal(g[..|g| - 1], h[..|h| - 1]);
    }
  }

  // ------------------------------------------------------------ the payees themselves

  /** How many of the items are larger than a size. */
  function CountAbove(items: seq<Entity>, basis: Basis, size: nat): nat {
    if items == [] then 0
    else (if Magnitude(items[0], basis) > size then 1 else 0) + CountAbove(items[1..], basis, size)
  }

  lemma {:induction false} NoneAbove(items: seq<Entity>, basis: Basis, size: nat)
    requires forall x | x in items :: Magnitude(x, basis) <= size
    ensures CountAbove(items, basis, size) == 0
  {
    if items != [] {
      NoneAbove(items[1..], basis, size);
    }
  }

  lemma {:induction false} InsertCounts(x: Entity, s: seq<Entity>, basis: Basis, size: nat)
    ensures CountAbove(Insert(x, s, Larger(basis)), basis, size) ==
              CountAbove([x], basis, size) + CountAbove(s, basis, size)
  {
    var r := Insert(x, s, Larger(basis));
    if s != [] && Larger(basis)(s[0], x) {
      InsertCounts(x, s[1..], basis, size);
      assert r[1..] == Insert(x, s[1..], Larger(basis));
    } else {
      assert r[1..] == s;
    }
  }

  lemma {:induction false} SortedCounts(s: seq<Entity>, basis: Basis, size: nat)
    ensures CountAbove(Sorted(s, Larger(basis)), basis, size) == CountAbove(s, basis, size)
  {
    if s != [] {
      SortedCounts(s[1..], basis, size);
      InsertCounts(s[0], Sorted(s[1..], Larger(basis)), basis, size);
    }
  }

  /** An item is placed just after those that are larger. */
  lemma {:induction false} InsertPlaces(x: Entity, s: seq<Entity>, basis: Basis)
    requires InOrder(s, Larger(basis))
    ensures var r, at := Insert(x, s, Larger(basis)), CountAbove(s, basis, Magnitude(x, basis)); at < |r| && r[at] == x
  {
    if s != [] && Larger(basis)(s[0], x) {
      InsertPlaces(x, s[1..], basis);
    } else {
      NoneAbove(s, basis, Magnitude(x, basis));
    }
  }

  /** The first of the input stands in front of everything it ties with. */
  lemma FirstStandsFirst(x: Entity, rest: seq<Entity>, basis: Basis, k: nat)
    requires CountAbove(rest, basis, Magnitude(x, basis)) < k
    ensures var shown, at := Shown([x] + rest, basis, k), CountAbove(rest, basis, Magnitude(x, basis));
            at < |shown| && shown[at] == x
  {
    var before := Larger(basis);
    ComparisonsSort(basis);
    SortedIsInOrder(rest, before);
    SortedCounts(rest, basis, Magnitude(x, basis));
    InsertPlaces(x, Sorted(rest, before), basis);
    assert ([x] + rest)[1..] == rest;
  }

  lemma {:induction false} CountPermutes(s: seq<Entity>, t: seq<Entity>, basis: Basis, size: nat)
    requires multiset(s) == multiset(t)
    ensures CountAbove(s, basis, size) == CountAbove(t, basis, size)
  {
    SortedCounts(s, basis, size);
    SortedCounts(t, basis, size);
    SortedMagnitudes(s, t, basis);
    SameMagnitudesSameCount(Sorted(s, Larger(basis)), Sorted(t, Larger(basis)), basis, size);
  }

  lemma {:induction false} SameMagnitudesSameCount(s: seq<Entity>, t: seq<Entity>, basis: Basis, size: nat)
    requires Magnitudes(s, basis) == Magnitudes(t, basis)
    ensures CountAbove(s, basis, size) == CountAbove(t, basis, size)
  {
    assert |s| == |Magnitudes(s, basis)| == |t|;
    if s != [] {
      assert Magnitudes(s[1..], basis) == Magnitudes(s, basis)[1..] == Magnitudes(t[1..], basis);
      assert Magnitude(s[0], basis) == Magnitudes(s, basis)[0] == Magnitude(t[0], basis);
      SameMagnitudesSameCount(s[1..], t[1..], basis, size);
    }
  }

  lemma {:induction false} AboveStandBefore(s: seq<Entity>, i: nat, basis: Basis)
    requires InOrder(s, Larger(basis)) && i < |s|
    ensures CountAbove(s, basis, Magnitude(s[i], basis)) <= i
  {
    if i == 0 {
      NoneAbove(s, basis, Magnitude(s[0], basis));
    } else {
      AboveStandBefore(s[1..], i - 1, basis);
    }
  }

  /** Two different payees are equally large, and that size is among the shown. */
  ghost predicate TieShows(booked: seq<Entity>, basis: Basis, k: nat, x: Entity, y: Entity) {
    && x in booked && y in booked && x != y
    && Magnitude(x, basis) == Magnitude(y, basis) && CountAbove(booked, basis, Magnitude(x, basis)) < k
  }

  lemma ShownIsCanonicalWithoutTies(s: seq<Entity>, t: seq<Entity>, basis: Basis, k: nat)
    requires multiset(s) == multiset(t) && forall x, y | x in s && y in s :: !TieShows(s, basis, k, x, y)
    ensures Shown(s, basis, k) == Shown(t, basis, k)
  {
    hide Sorted;
    var u, v := Sorted(s, Larger(basis)), Sorted(t, Larger(basis));
    SortedMagnitudes(s, t, basis);
    ComparisonsSort(basis);
    SortedIsInOrder(s, Larger(basis));
    SortedHasSameElements(s, Larger(basis));
    SortedHasSameElements(t, Larger(basis));
    assert |u| == |Magnitudes(u, basis)| == |v|;
    forall i | 0 <= i < |u| && i < k
      ensures u[i] == v[i]
    {
      assert u[i] in u && v[i] in v;
      assert v[i] in multiset(t);
      assert Magnitudes(u, basis)[i] == Magnitudes(v, basis)[i];
      AboveStandBefore(u, i, basis);
      SortedCounts(s, basis, Magnitude(u[i], basis));
      assert !TieShows(s, basis, k, u[i], v[i]);
    }
  }

  lemma {:induction false} ArrangeMultiset(m: multiset<Entity>) returns (s: seq<Entity>)
    ensures multiset(s) == m
    decreases |m|
  {
    if m == multiset{} {
      s := [];
    } else {
      var x :| x in m;
      var rest := ArrangeMultiset(m - multiset{x});
      s := [x] + rest;
    }
  }

  /** Two arrangements of an account's entities that show a tied pair differently. */
  lemma ATieShowsTwoWays(booked: seq<Entity>, basis: Basis, k: nat, x: Entity, y: Entity)
    returns (s: seq<Entity>, t: seq<Entity>)
    requires TieShows(booked, basis, k, x, y)
    ensures multiset(s) == multiset(t) == multiset(booked) && Shown(s, basis, k) != Shown(t, basis, k)
  {
    var m := multiset(booked);
    assert x in m && y in m;
    var rest := ArrangeMultiset(m - multiset{x} - multiset{y});
    s, t := [x] + ([y] + rest), [y] + ([x] + rest);
    assert multiset(s) == m;
    assert multiset(t) == m;
    CountPermutes(s, booked, basis, Magnitude(x, basis));
    TwoOrders(x, y, rest, basis, k);
  }

  lemma TwoOrders(x: Entity, y: Entity, rest: seq<Entity>, basis: Basis, k: nat)
    requires x != y && Magnitude(x, basis) == Magnitude(y, basis)
    requires CountAbove([x] + ([y] + rest), basis, Magnitude(x, basis)) < k
    ensures Shown([x] + ([y] + rest), basis, k) != Shown([y] + ([x] + rest), basis, k)
  {
    hide Shown;
    var size := Magnitude(x, basis);
    CountOfOneMore(x, [y] + rest, basis, size);
    CountOfOneMore(y, rest, basis, size);
    CountOfOneMore(x, rest, basis, size);
    FirstStandsFirst(x, [y] + rest, basis, k);
    FirstStandsFirst(y, [x] + rest, basis, k);
  }

  lemma CountOfOneMore(x: Entity, rest: seq<Entity>, basis: Basis, size: nat)
    requires Magnitude(x, basis) == size
    ensures CountAbove([x] + rest, basis, size) == CountAbove(rest, basis, size)
  {
    assert ([x] + rest)[1..] == rest;
  }

  /** Which payees a wedge shows, and in what order, is independent of the input's order exactly when no tie shows. */
  lemma PayeesAreCanonicalExactlyWhen(booked: seq<Entity>, basis: Basis, k: nat)
    ensures (forall other: seq<Entity> | multiset(other) == multiset(booked) ::
               Shown(other, basis, k) == Shown(booked, basis, k)) <==>
            (forall x, y | x in booked && y in booked :: !TieShows(booked, basis, k, x, y))
  {
    hide Shown;
    if forall x, y | x in booked && y in booked :: !TieShows(booked, basis, k, x, y) {
      forall other: seq<Entity> | multiset(other) == multiset(booked)
        ensures Shown(other, basis, k) == Shown(booked, basis, k)
      {
        ShownIsCanonicalWithoutTies(booked, other, basis, k);
      }
    } else {
      var x, y :| x in booked && y in booked && TieShows(booked, basis, k, x, y);
      var s, t := ATieShowsTwoWays(booked, basis, k, x, y);
    }
  }
}
