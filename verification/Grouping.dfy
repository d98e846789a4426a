/** The insertion-ordered Map<key, list> that the source builds to group things by a key. */
module Grouping {
  import opened Wrappers

  datatype Group<K, T> = Group(key: K, items: seq<T>)

  /** The items with the given key, in their original order. */
  function ItemsOf<K(==), T>(items: seq<T>, key: T -> Option<K>, k: K): seq<T> {
    if items == [] then []
    else
      var init, last := items[..|items| - 1], items[|items| - 1];
      ItemsOf(init, key, k) + (if key(last) == Some(k) then [last] else [])
  }

  /** Every keyed item sits in the one group of its key, in order, and no group is empty. */
  ghost predicate IsGroupedBy<K(!new), T(!new)>(items: seq<T>, key: T -> Option<K>, groups: seq<Group<K, T>>) {
    && (forall i, j | 0 <= i < j < |groups| :: groups[i].key != groups[j].key)
    && (forall i | 0 <= i < |groups| :: groups[i].items != [] && groups[i].items == ItemsOf(items, key, groups[i].key))
    && (forall x | x in items && key(x).Some? :: exists i :: 0 <= i < |groups| && groups[i].key == key(x).value)
  }

  lemma {:induction false} ItemsOfMembers<K, T>(items: seq<T>, key: T -> Option<K>, k: K)
    ensures forall x :: x in ItemsOf(items, key, k) <==> x in items && key(x) == Some(k)
  {
    if items != [] {
      var init, last := items[..|items| - 1], items[|items| - 1];
      ItemsOfMembers(init, key, k);
      assert items == init + [last];
    }
  }

  lemma {:induction false} ItemsOfAbsent<K, T>(items: seq<T>, key: T -> Option<K>, k: K)
    requires forall x | x in items :: key(x) != Some(k)
    ensures ItemsOf(items, key, k) == []
  {
    if items != [] {
      assert items[|items| - 1] in items;
      ItemsOfAbsent(items[..|items| - 1], key, k);
    }
  }

  function Size<K, T>(groups: seq<Group<K, T>>): nat {
    if groups == [] then 0 else Size(groups[..|groups| - 1]) + |groups[|groups| - 1].items|
  }

  lemma {:induction false} SizeOfPrefix<K, T>(groups: seq<Group<K, T>>, n: nat)
    requires n <= |groups|
    ensures Size(groups[..n]) <= Size(groups)
    ensures n < |groups| ==> Size(groups[..n + 1]) == Size(groups[..n]) + |groups[n].items|
    ensures n < |groups| && groups[n].items != [] ==> Size(groups[..n]) < Size(groups)
    decreases |groups| - n
  {
    if n < |groups| {
      SizeOfPrefix(groups, n + 1);
      assert groups[..n + 1][..n] == groups[..n];
    } else {
      assert groups[..n] == groups;
    }
  }

  lemma {:induction false} SizeOfUpdate<K, T>(groups: seq<Group<K, T>>, i: nat, g: Group<K, T>)
    requires i < |groups|
    ensures Size(groups[i := g]) == Size(groups) - |groups[i].items| + |g.items|
  {
    var n := |groups| - 1;
    if i == n {
      assert groups[i := g][..n] == groups[..n];
    } else {
      assert groups[i := g][..n] == groups[..n][i := g];
      SizeOfUpdate(groups[..n], i, g);
    }
  }

  /** The groups after one more item with key k, which lands in group number at. */
  ghost predicate IsInserted<K(!new), T(!new)>(groups: seq<Group<K, T>>, k: K, x: T, r: seq<Group<K, T>>, at: nat) {
    if at < |groups| then
      groups[at].key == k && r == groups[at := Group(k, groups[at].items + [x])]
    else
      at == |groups| && r == groups + [Group(k, [x])] && forall i | 0 <= i < |groups| :: groups[i].key != k
  }

  method Place<K(==, !new), T(!new)>(groups: seq<Group<K, T>>, k: K, x: T) returns (r: seq<Group<K, T>>, at: nat)
    ensures IsInserted(groups, k, x, r, at)
    ensures Size(r) == Size(groups) + 1
  {
    at := 0;
    while at < |groups| && groups[at].key != k
      invariant at <= |groups|
      invariant forall j | 0 <= j < at :: groups[j].key != k
    {
      at := at + 1;
    }
    if at < |groups| {
      SizeOfUpdate(groups, at, Group(k, groups[at].items + [x]));
      r := groups[at := Group(k, groups[at].items + [x])];
    } else {
      r := groups + [Group(k, [x])];
      assert r[..|groups|] == groups;
    }
  }

  lemma ItemsOfOneMore<K, T>(items: seq<T>, x: T, key: T -> Option<K>, k: K)
    ensures ItemsOf(items + [x], key, k) == ItemsOf(items, key, k) + (if key(x) == Some(k) then [x] else [])
  {
    assert (items + [x])[..|items|] == items;
  }

  lemma PlacingKeepsGrouping<K(!new), T(!new)>(
    items: seq<T>, x: T, key: T -> Option<K>, groups: seq<Group<K, T>>, r: seq<Group<K, T>>, at: nat)
    requires IsGroupedBy(items, key, groups)
    requires key(x).Some? && IsInserted(groups, key(x).value, x, r, at)
    ensures IsGroupedBy(items + [x], key, r)
  {
    hide ItemsOf;
    var k := key(x).value;
    forall i | 0 <= i < |r|
      ensures ItemsOf(items + [x], key, r[i].key) ==
                ItemsOf(items, key, r[i].key) + (if k == r[i].key then [x] else [])
    {
      ItemsOfOneMore(items, x, key, r[i].key);
    }
    if at == |groups| {
      forall y | y in items
        ensures key(y) != Some(k)
      {
        if key(y).Some? {
          var j :| 0 <= j < |groups| && groups[j].key == key(y).value;
        }
      }
      ItemsOfAbsent(items, key, k);
    }
    forall y | y in items + [x] && key(y).Some?
      ensures exists i :: 0 <= i < |r| && r[i].key == key(y).value
    {
      if y in items {
        var j :| 0 <= j < |groups| && groups[j].key == key(y).value;
        assert r[j].key == key(y).value;
      } else {
        assert r[at].key == key(y).value;
      }
    }
  }

  method GroupBy<K(==, !new), T(!new)>(items: seq<T>, key: T -> Option<K>) returns (groups: seq<Group<K, T>>)
    ensures IsGroupedBy(items, key, groups)
    ensures (forall x | x in items :: key(x).Some?) ==> Size(groups) == |items|
  {
    groups := [];
    for n := 0 to |items|
      invariant IsGroupedBy(items[..n], key, groups)
      invariant (forall x | x in items :: key(x).Some?) ==> Size(groups) == n
    {
      var k := key(items[n]);
      assert items[..n + 1] == items[..n] + [items[n]];
      if k.Some? {
        var placed, at := Place(groups, k.value, items[n]);
        PlacingKeepsGrouping(items[..n], items[n], key, groups, placed, at);
        groups := placed;
      } else {
        SkippingKeepsGrouping(items[..n], items[n], key, groups);
      }
    }
    assert items[..|items|] == items;
  }

  lemma SkippingKeepsGrouping<K(!new), T(!new)>(items: seq<T>, x: T, key: T -> Option<K>, groups: seq<Group<K, T>>)
    requires IsGroupedBy(items, key, groups) && key(x).None?
    ensures IsGroupedBy(items + [x], key, groups)
  {
    assert (items + [x])[..|items|] == items;
  }
}
