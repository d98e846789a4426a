/** Which accounts and payees the ledger graph shows, and the weight each account's wedge gets. */
module RingSelection {
  import opened Wrappers
  import opened Grouping
  import opened Ordering

  datatype Basis = Amount | Volume

  datatype Entity = Entity(key: string, account: Option<string>, amount: int, occurrences: int)

  datatype RingGroup = RingGroup(number: string, items: seq<Entity>, weight: nat)

  datatype Selection = Selection(
    basis: Basis, groups: seq<RingGroup>, truncated: bool, totalWeight: nat, maxMagnitude: nat)

  /** Entities without an account, or with an empty one, are left out of the ring. */
  function AccountOf(e: Entity): Option<string> {
    if e.account == Some("") then None else e.account
  }

  function Magnitude(e: Entity, basis: Basis): nat {
    var size := if basis == Volume then e.occurrences else e.amount;
    if size > 0 then size else 0
  }

  function SumMagnitude(items: seq<Entity>, basis: Basis): nat {
    if items == [] then 0 else SumMagnitude(items[..|items| - 1], basis) + Magnitude(items[|items| - 1], basis)
  }

  function Take<T>(s: seq<T>, n: nat): seq<T> {
    if n < |s| then s[..n] else s
  }

  function Larger(basis: Basis): (Entity, Entity) -> bool {
    (a, b) => Magnitude(a, basis) > Magnitude(b, basis)
  }

  /** The order that decides what is shown: heavier first, then by account number. */
  predicate Outranks(a: RingGroup, b: RingGroup) {
    a.weight > b.weight || (a.weight == b.weight && Before(a.number, b.number))
  }

  function TotalWeight(groups: seq<RingGroup>): nat {
    if groups == [] then 0 else TotalWeight(groups[..|groups| - 1]) + groups[|groups| - 1].weight
  }

  function Largest(sizes: seq<nat>): (r: nat)
    ensures r >= 1 && (r == 1 || r in sizes)
    ensures forall x | x in sizes :: x <= r
  {
    if sizes == [] then 1
    else
      assert sizes == sizes[..|sizes| - 1] + [sizes[|sizes| - 1]];
      var rest := Largest(sizes[..|sizes| - 1]);
      if sizes[|sizes| - 1] > rest then sizes[|sizes| - 1] else rest
  }

  function Magnitudes(items: seq<Entity>, basis: Basis): (r: seq<nat>)
    ensures |r| == |items|
  {
    seq(|items|, i requires 0 <= i < |items| => Magnitude(items[i], basis))
  }

  function AllMagnitudes(groups: seq<RingGroup>, basis: Basis): seq<nat> {
    if groups == [] then []
    else AllMagnitudes(groups[..|groups| - 1], basis) + Magnitudes(groups[|groups| - 1].items, basis)
  }

  // ------------------------------------------------------------ what a selection is

  function Accounts(entities: seq<Entity>): set<string> {
    set e | e in entities && AccountOf(e).Some? :: AccountOf(e).value
  }

  function Booked(entities: seq<Entity>, number: string): seq<Entity> {
    ItemsOf(entities, AccountOf, number)
  }

  function WeightOf(entities: seq<Entity>, basis: Basis, number: string): nat {
    SumMagnitude(Booked(entities, number), basis)
  }

  /** Kronor only when every account has some; booking volume otherwise, for all of them. */
  function BasisOf(entities: seq<Entity>): Basis {
    if Accounts(entities) != {} && forall n | n in Accounts(entities) :: WeightOf(entities, Amount, n) > 0
    then Amount else Volume
  }

  /** The payees one wedge shows. */
  function Shown(booked: seq<Entity>, basis: Basis, maxPerAccount: nat): seq<Entity> {
    Take(Sorted(booked, Larger(basis)), maxPerAccount)
  }

  function Trimmed(g: RingGroup, maxPerAccount: nat): RingGroup {
    g.(items := Take(g.items, maxPerAccount))
  }

  /** An account's group before its payees are capped. */
  function FullGroup(entities: seq<Entity>, basis: Basis, number: string): RingGroup {
    RingGroup(number, Sorted(Booked(entities, number), Larger(basis)), WeightOf(entities, basis, number))
  }

  /** The shown group: the largest payees, and the weight of all of them. */
  function GroupOf(entities: seq<Entity>, basis: Basis, maxPerAccount: nat, number: string): RingGroup {
    RingGroup(number, Shown(Booked(entities, number), basis, maxPerAccount), WeightOf(entities, basis, number))
  }

  ghost predicate OutranksNumber(entities: seq<Entity>, basis: Basis, a: string, b: string) {
    var x, y := WeightOf(entities, basis, a), WeightOf(entities, basis, b);
    x > y || (x == y && Before(a, b))
  }

  function Numbers(groups: seq<RingGroup>): (r: seq<string>)
    ensures |r| == |groups|
  {
    seq(|groups|, i requires 0 <= i < |groups| => groups[i].number)
  }

  ghost predicate IsSelection(entities: seq<Entity>, maxAccounts: nat, maxPerAccount: nat, r: Selection) {
    var accounts := Accounts(entities);
    && r.basis == BasisOf(entities)
    && IsTop(entities, r.basis, maxAccounts, Numbers(r.groups))
    && (forall i | 0 <= i < |r.groups| :: r.groups[i] == GroupOf(entities, r.basis, maxPerAccount, r.groups[i].number))
    && (r.truncated <==>
          || |accounts| > maxAccounts
          || exists i | 0 <= i < |r.groups| :: |Booked(entities, r.groups[i].number)| > maxPerAccount)
    && r.totalWeight == (if TotalWeight(r.groups) == 0 then 1 else TotalWeight(r.groups))
    && r.maxMagnitude == Largest(AllMagnitudes(r.groups, r.basis))
  }

  /** As many accounts as fit, in ascending order, none of them outranked by one that is left out. */
  ghost predicate IsTop(entities: seq<Entity>, basis: Basis, maxAccounts: nat, numbers: seq<string>) {
    var accounts := Accounts(entities);
    && Ascending(numbers)
    && (forall n | n in numbers :: n in accounts)
    && |numbers| == (if maxAccounts < |accounts| then maxAccounts else |accounts|)
    && forall n, dropped | n in numbers && dropped in accounts && dropped !in numbers ::
         OutranksNumber(entities, basis, n, dropped)
  }

  // ------------------------------------------------------------ what it measures, said of the entities' fields

  predicate IsOn(e: Entity, number: string) {
    number != "" && e.account == Some(number)
  }

  /** The positive amounts on an account. */
  function KronorOn(entities: seq<Entity>, number: string): nat {
    if entities == [] then 0
    else
      var e := entities[|entities| - 1];
      KronorOn(entities[..|entities| - 1], number) + if IsOn(e, number) && e.amount > 0 then e.amount else 0
  }

  /** The positive numbers of bookings on an account. */
  function BookingsOn(entities: seq<Entity>, number: string): nat {
    if entities == [] then 0
    else
      var e := entities[|entities| - 1];
      BookingsOn(entities[..|entities| - 1], number) + if IsOn(e, number) && e.occurrences > 0 then e.occurrences else 0
  }

  /** Of two payees of a shown account the first is at least as large, or both count for nothing. */
  predicate NotSmaller(basis: Basis, a: Entity, b: Entity) {
    match basis
    case Amount => a.amount >= b.amount || b.amount <= 0
    case Volume => a.occurrences >= b.occurrences || b.occurrences <= 0
  }

  /** The wedge shows entities of its account, as many as fit, largest first, and none smaller than one left out. */
  ghost predicate ShowsTheLargest(entities: seq<Entity>, basis: Basis, maxPerAccount: nat, g: RingGroup) {
    && multiset(g.items) <= multiset(entities)
    && (forall x | x in g.items :: IsOn(x, g.number))
    && (forall i, j | 0 <= i < j < |g.items| :: NotSmaller(basis, g.items[i], g.items[j]))
    && |g.items| <= maxPerAccount
    && (forall e | IsOn(e, g.number) && multiset(g.items)[e] < multiset(entities)[e] ::
          |g.items| == maxPerAccount && forall x | x in g.items :: NotSmaller(basis, x, e))
  }

  predicate HasKronor(entities: seq<Entity>, number: string) {
    exists f | f in entities :: f.account == Some(number) && f.amount > 0
  }

  function WeightOn(entities: seq<Entity>, basis: Basis, number: string): nat {
    if basis == Amount then KronorOn(entities, number) else BookingsOn(entities, number)
  }

  /** The entity has an account, and is not shown as often as it occurs. */
  ghost predicate IsLeftOut(entities: seq<Entity>, groups: seq<RingGroup>, e: Entity) {
    && e.account.Some? && e.account.value != ""
    && forall g | g in groups && g.number == e.account.value :: multiset(g.items)[e] < multiset(entities)[e]
  }

  /**
   The accounts shown, ascending and as many as fit. An account that is not shown weighs less than each that is, or as
   much and comes later.
   */
  ghost predicate ShowsTheHeaviest(entities: seq<Entity>, basis: Basis, maxAccounts: nat, groups: seq<RingGroup>) {
    && |groups| <= maxAccounts
    && (forall i, j | 0 <= i < j < |groups| :: Before(groups[i].number, groups[j].number))
    && (forall g | g in groups :: exists e | e in entities :: IsOn(e, g.number))
    && (forall e | e in entities && e.account.Some? && e.account.value != ""
          && (forall g | g in groups :: g.number != e.account.value)
          :: |groups| == maxAccounts && forall g | g in groups ::
            var weight := WeightOn(entities, basis, e.account.value);
            g.weight > weight || (g.weight == weight && Before(g.number, e.account.value)))
  }

  /**
   Kronor exactly when there is an account and each has some. The heaviest accounts are shown; a wedge weighs all that
   is on its account in that unit, and shows the largest of its payees. The ring is truncated exactly when an entity
   with an account is left out. The maximum is the size of the largest payee shown, or 1 if none is larger.
   */
  ghost predicate IsMeasured(entities: seq<Entity>, maxAccounts: nat, maxPerAccount: nat, r: Selection) {
    && (r.basis == Amount <==>
        && (exists e | e in entities :: e.account.Some? && e.account.value != "")
        && forall e | e in entities && e.account.Some? && e.account.value != "" ::
             HasKronor(entities, e.account.value))
    && ShowsTheHeaviest(entities, r.basis, maxAccounts, r.groups)
    && (forall g | g in r.groups ::
          && g.weight == WeightOn(entities, r.basis, g.number)
          && ShowsTheLargest(entities, r.basis, maxPerAccount, g))
    && (r.truncated <==> exists e | e in entities :: IsLeftOut(entities, r.groups, e))
    && r.maxMagnitude >= 1
    && (forall g, x | g in r.groups && x in g.items ::
          (if r.basis == Amount then x.amount else x.occurrences) <= r.maxMagnitude)
    && (r.maxMagnitude == 1 || exists g, x | g in r.groups && x in g.items ::
          (if r.basis == Amount then x.amount else x.occurrences) == r.maxMagnitude)
  }

  lemma {:induction false} WeightIsMeasured(entities: seq<Entity>, number: string)
    requires number != ""
    ensures WeightOf(entities, Amount, number) == KronorOn(entities, number)
    ensures WeightOf(entities, Volume, number) == BookingsOn(entities, number)
  {
    if entities != [] {
      var n := |entities| - 1;
      var init, last := entities[..n], entities[n];
      WeightIsMeasured(init, number);
      if AccountOf(last) == Some(number) {
        assert (Booked(init, number) + [last])[..|Booked(init, number)|] == Booked(init, number);
      } else {
        assert Booked(init, number) + [] == Booked(init, number);
      }
    }
  }

  lemma {:induction false} KronorArePositive(entities: seq<Entity>, number: string)
    requires number != ""
    ensures KronorOn(entities, number) > 0 <==> HasKronor(entities, number)
  {
    if entities != [] {
      var n := |entities| - 1;
      KronorArePositive(entities[..n], number);
      assert entities == entities[..n] + [entities[n]];
    }
  }

  lemma AccountsAreNamed(entities: seq<Entity>)
    ensures forall n :: n in Accounts(entities) <==> n != "" && exists e | e in entities :: e.account == Some(n)
  {
    forall n | n != "" && exists e | e in entities :: e.account == Some(n)
      ensures n in Accounts(entities)
    {
      var e :| e in entities && e.account == Some(n);
      assert AccountOf(e) == Some(n);
    }
  }

  lemma BasisIsMeasured(entities: seq<Entity>)
    ensures BasisOf(entities) == Amount <==>
            && (exists e | e in entities :: e.account.Some? && e.account.value != "")
            && forall e | e in entities && e.account.Some? && e.account.value != "" ::
                 HasKronor(entities, e.account.value)
  {
    hide WeightOf, Accounts, HasKronor;
    AccountsAreNamed(entities);
    var accounts := Accounts(entities);
    forall n | n in accounts
      ensures WeightOf(entities, Amount, n) > 0 <==> HasKronor(entities, n)
    {
      WeightIsMeasured(entities, n);
      KronorArePositive(entities, n);
    }
    assert forall e | e in entities && e.account.Some? && e.account.value != "" :: e.account.value in accounts;
    assert accounts != {} <==> exists e | e in entities :: e.account.Some? && e.account.value != "";
    assert (forall n | n in accounts :: HasKronor(entities, n)) <==>
           forall e | e in entities && e.account.Some? && e.account.value != "" :: HasKronor(entities, e.account.value);
  }

  lemma {:induction false} BookedOn(entities: seq<Entity>, number: string)
    requires number != ""
    ensures forall e :: multiset(Booked(entities, number))[e] == if IsOn(e, number) then multiset(entities)[e] else 0
  {
    if entities != [] {
      var n := |entities| - 1;
      BookedOn(entities[..n], number);
      assert entities == entities[..n] + [entities[n]];
    }
  }

  lemma LargestAreShown(entities: seq<Entity>, basis: Basis, maxPerAccount: nat, number: string)
    requires number != ""
    ensures ShowsTheLargest(entities, basis, maxPerAccount, GroupOf(entities, basis, maxPerAccount, number))
  {
    hide Booked, Sorted, WeightOf, InOrder, IsOn, NotSmaller, Larger, IsWeakOrder;
    var booked := Booked(entities, number);
    var shown := Shown(booked, basis, maxPerAccount);
    BookedOn(entities, number);
    FirstOfSorted(booked, basis, maxPerAccount);
    forall x | x in shown
      ensures IsOn(x, number)
    {
      assert x in multiset(shown) && multiset(shown)[x] <= multiset(booked)[x];
    }
  }

  /** The first of the sorted payees: no one is smaller than one that comes later or is left out. */
  lemma FirstOfSorted(booked: seq<Entity>, basis: Basis, k: nat)
    ensures var shown := Shown(booked, basis, k);
            && multiset(shown) <= multiset(booked) && |shown| <= k
            && (forall i, j | 0 <= i < j < |shown| :: NotSmaller(basis, shown[i], shown[j]))
            && forall e | multiset(shown)[e] < multiset(booked)[e] ::
                 |shown| == k && forall x | x in shown :: NotSmaller(basis, x, e)
  {
    hide Sorted, IsWeakOrder, NotSmaller;
    var sorted := Sorted(booked, Larger(basis));
    var shown := Shown(booked, basis, k);
    ComparisonsSort(basis);
    SortedIsPermutation(booked, Larger(basis));
    SortedIsInOrder(booked, Larger(basis));
    forall i, j | 0 <= i < j < |sorted|
      ensures NotSmaller(basis, sorted[i], sorted[j])
    {
      NotLarger(basis, sorted[i], sorted[j]);
    }
    var rest := sorted[|shown|..];
    assert sorted == shown + rest;
    forall e | multiset(shown)[e] < multiset(booked)[e]
      ensures |shown| == k && forall x | x in shown :: NotSmaller(basis, x, e)
    {
      assert e in multiset(rest);
      var j :| 0 <= j < |rest| && rest[j] == e;
      assert sorted[|shown| + j] == e;
    }
  }

  lemma NotLarger(basis: Basis, a: Entity, b: Entity)
    requires !Larger(basis)(b, a)
    ensures NotSmaller(basis, a, b)
  {
  }

  lemma {:induction false} MagnitudesOfGroups(groups: seq<RingGroup>, basis: Basis)
    ensures forall m :: m in AllMagnitudes(groups, basis) <==>
                        exists g, x | g in groups && x in g.items :: Magnitude(x, basis) == m
  {
    hide Magnitude;
    if groups != [] {
      var n := |groups| - 1;
      MagnitudesOfGroups(groups[..n], basis);
      assert groups == groups[..n] + [groups[n]];
      var items := groups[n].items;
      forall m
        ensures m in Magnitudes(items, basis) <==> exists x | x in items :: Magnitude(x, basis) == m
      {
        if x :| x in items && Magnitude(x, basis) == m {
          var i :| 0 <= i < |items| && items[i] == x;
          assert Magnitudes(items, basis)[i] == m;
        }
        if m in Magnitudes(items, basis) {
          var i :| 0 <= i < |items| && Magnitudes(items, basis)[i] == m;
          assert items[i] in items;
        }
      }
    }
  }

  lemma MaximumIsMeasured(groups: seq<RingGroup>, basis: Basis)
    ensures var m := Largest(AllMagnitudes(groups, basis));
            && (forall g, x | g in groups && x in g.items ::
                  (if basis == Amount then x.amount else x.occurrences) <= m)
            && (m == 1 || exists g, x | g in groups && x in g.items ::
                  (if basis == Amount then x.amount else x.occurrences) == m)
  {
    hide AllMagnitudes;
    MagnitudesOfGroups(groups, basis);
    var m := Largest(AllMagnitudes(groups, basis));
    forall g, x | g in groups && x in g.items
      ensures (if basis == Amount then x.amount else x.occurrences) <= m
    {
      assert Magnitude(x, basis) in AllMagnitudes(groups, basis);
    }
    if m != 1 {
      var g, x :| g in groups && x in g.items && Magnitude(x, basis) == m;
      assert (if basis == Amount then x.amount else x.occurrences) == m;
    }
  }

  lemma GroupIsMeasured(entities: seq<Entity>, basis: Basis, maxPerAccount: nat, number: string)
    requires number in Accounts(entities)
    ensures var g := GroupOf(entities, basis, maxPerAccount, number);
            && g.weight == WeightOn(entities, basis, number)
            && ShowsTheLargest(entities, basis, maxPerAccount, g)
  {
    hide WeightOf, Accounts, GroupOf, ShowsTheLargest, KronorOn, BookingsOn;
    AccountsAreNamed(entities);
    WeightIsMeasured(entities, number);
    LargestAreShown(entities, basis, maxPerAccount, number);
    GroupHasItsWeight(entities, basis, maxPerAccount, number);
  }

  /** What a selection is can be said of the entities' own fields. */
  lemma SelectionIsMeasured(entities: seq<Entity>, maxAccounts: nat, maxPerAccount: nat, r: Selection)
    requires IsSelection(entities, maxAccounts, maxPerAccount, r)
    ensures IsMeasured(entities, maxAccounts, maxPerAccount, r)
  {
    hide WeightOf, Accounts, BasisOf, AllMagnitudes, GroupOf, ShowsTheLargest, WeightOn, OutranksNumber, IsLeftOut;
    hide HasKronor, ShowsTheHeaviest, TotalWeight, Booked, IsTop;
    BasisIsMeasured(entities);
    HeaviestAreShown(entities, r.basis, maxAccounts, maxPerAccount, r.groups);
    TruncationIsMeasured(entities, r.basis, maxAccounts, maxPerAccount, r.groups);
    forall g | g in r.groups
      ensures g.weight == WeightOn(entities, r.basis, g.number)
      ensures ShowsTheLargest(entities, r.basis, maxPerAccount, g)
    {
      var i :| 0 <= i < |r.groups| && r.groups[i] == g;
      ShownIsAnAccount(entities, r.basis, maxAccounts, r.groups, i);
      GroupIsMeasured(entities, r.basis, maxPerAccount, g.number);
    }
    MaximumIsMeasured(r.groups, r.basis);
  }

  lemma ShownIsAnAccount(entities: seq<Entity>, basis: Basis, maxAccounts: nat, groups: seq<RingGroup>, i: nat)
    requires IsTop(entities, basis, maxAccounts, Numbers(groups)) && i < |groups|
    ensures groups[i].number in Accounts(entities)
  {
    hide Accounts, OutranksNumber;
    assert Numbers(groups)[i] == groups[i].number && groups[i].number in Numbers(groups);
  }

  lemma HeaviestAreShown(entities: seq<Entity>, basis: Basis, maxAccounts: nat, maxPerAccount: nat,
                         groups: seq<RingGroup>)
    requires IsTop(entities, basis, maxAccounts, Numbers(groups))
    requires forall i | 0 <= i < |groups| :: groups[i] == GroupOf(entities, basis, maxPerAccount, groups[i].number)
    ensures ShowsTheHeaviest(entities, basis, maxAccounts, groups)
  {
    hide Accounts, WeightOf, GroupOf, WeightOn, IsTop, Before, IsOn;
    ShownAscend(entities, basis, maxAccounts, groups);
    forall g | g in groups
      ensures exists e | e in entities :: IsOn(e, g.number)
    {
      var i :| 0 <= i < |groups| && groups[i] == g;
      ShownIsAnAccount(entities, basis, maxAccounts, groups, i);
      var e := AnEntityOn(entities, g.number);
    }
    forall e | e in entities && e.account.Some? && e.account.value != ""
               && (forall g | g in groups :: g.number != e.account.value)
      ensures |groups| == maxAccounts
      ensures forall g | g in groups ::
                var weight := WeightOn(entities, basis, e.account.value);
                g.weight > weight || (g.weight == weight && Before(g.number, e.account.value))
    {
      DroppedIsLighter(entities, basis, maxAccounts, maxPerAccount, groups, e);
    }
  }

  lemma ShownAscend(entities: seq<Entity>, basis: Basis, maxAccounts: nat, groups: seq<RingGroup>)
    requires IsTop(entities, basis, maxAccounts, Numbers(groups))
    ensures |groups| <= maxAccounts
    ensures forall i, j | 0 <= i < j < |groups| :: Before(groups[i].number, groups[j].number)
  {
    hide Accounts, OutranksNumber, Before;
    var numbers := Numbers(groups);
    assert forall i | 0 <= i < |groups| :: numbers[i] == groups[i].number;
    assert forall i, j | 0 <= i < j < |groups| :: Before(numbers[i], numbers[j]);
  }

  lemma AnEntityOn(entities: seq<Entity>, number: string) returns (e: Entity)
    requires number in Accounts(entities)
    ensures e in entities && IsOn(e, number)
  {
    e :| e in entities && AccountOf(e) == Some(number);
  }

  lemma DroppedIsLighter(entities: seq<Entity>, basis: Basis, maxAccounts: nat, maxPerAccount: nat,
                         groups: seq<RingGroup>, e: Entity)
    requires IsTop(entities, basis, maxAccounts, Numbers(groups))
    requires forall i | 0 <= i < |groups| :: groups[i] == GroupOf(entities, basis, maxPerAccount, groups[i].number)
    requires e in entities && e.account.Some? && e.account.value != ""
    requires forall g | g in groups :: g.number != e.account.value
    ensures |groups| == maxAccounts
    ensures forall g | g in groups ::
              var weight := WeightOn(entities, basis, e.account.value);
              g.weight > weight || (g.weight == weight && Before(g.number, e.account.value))
  {
    hide Accounts, WeightOf, GroupOf, WeightOn, Before, Ascending;
    var n, numbers := e.account.value, Numbers(groups);
    AccountsAreNamed(entities);
    assert n in Accounts(entities) && n !in numbers;
    WeightIsOn(entities, basis, n);
    DroppedMeansFull(entities, numbers, n);
    forall g | g in groups
      ensures g.number in numbers && g.weight == WeightOf(entities, basis, g.number)
    {
      var i :| 0 <= i < |groups| && groups[i] == g;
      assert numbers[i] == g.number;
      GroupHasItsWeight(entities, basis, maxPerAccount, g.number);
    }
  }

  lemma WeightIsOn(entities: seq<Entity>, basis: Basis, number: string)
    requires number != ""
    ensures WeightOf(entities, basis, number) == WeightOn(entities, basis, number)
  {
    hide WeightOf;
    WeightIsMeasured(entities, number);
  }

  /** If an account is not shown, fewer are shown than there are. */
  lemma DroppedMeansFull(entities: seq<Entity>, numbers: seq<string>, n: string)
    requires Ascending(numbers) && (forall x | x in numbers :: x in Accounts(entities))
    requires n in Accounts(entities) && n !in numbers
    ensures |numbers| < |Accounts(entities)|
  {
    hide Accounts;
    var shown := set x | x in numbers;
    forall i, j | 0 <= i < j < |numbers|
      ensures numbers[i] != numbers[j]
    {
      BeforeIsTotal(numbers[i], numbers[i]);
    }
    SetOfDistinct(numbers, shown);
    SubsetIsSmaller(shown, Accounts(entities), n);
  }

  lemma SubsetIsSmaller(a: set<string>, b: set<string>, n: string)
    requires a <= b && n in b - a
    ensures |a| < |b|
  {
    assert b == a + (b - a);
    assert |b - a| > 0;
  }

  /** Something is cut exactly when an account is dropped or a wedge has more payees than it shows. */
  lemma TruncationIsMeasured(entities: seq<Entity>, basis: Basis, maxAccounts: nat, maxPerAccount: nat,
                             groups: seq<RingGroup>)
    requires IsTop(entities, basis, maxAccounts, Numbers(groups))
    requires forall i | 0 <= i < |groups| :: groups[i] == GroupOf(entities, basis, maxPerAccount, groups[i].number)
    ensures (|Accounts(entities)| > maxAccounts
             || exists i | 0 <= i < |groups| :: |Booked(entities, groups[i].number)| > maxPerAccount)
       <==> exists e | e in entities :: IsLeftOut(entities, groups, e)
  {
    hide WeightOf, GroupOf, OutranksNumber, IsLeftOut;
    var numbers := Numbers(groups);
    if e :| e in entities && IsLeftOut(entities, groups, e) {
      LeftOutMeansCut(entities, basis, maxAccounts, maxPerAccount, groups, e);
    }
    if |Accounts(entities)| > maxAccounts {
      var n := ADroppedAccount(entities, numbers);
      var e :| e in entities && AccountOf(e) == Some(n);
      OnNoWedge(entities, groups, e);
    }
    if i :| 0 <= i < |groups| && |Booked(entities, groups[i].number)| > maxPerAccount {
      var e := ACutPayee(entities, basis, maxAccounts, maxPerAccount, groups, i);
    }
  }

  lemma OnNoWedge(entities: seq<Entity>, groups: seq<RingGroup>, e: Entity)
    requires AccountOf(e).Some? && AccountOf(e).value !in Numbers(groups)
    ensures IsLeftOut(entities, groups, e)
  {
    forall g | g in groups
      ensures g.number != e.account.value
    {
      var i :| 0 <= i < |groups| && groups[i] == g;
      assert Numbers(groups)[i] == g.number;
    }
  }

  lemma ADroppedAccount(entities: seq<Entity>, numbers: seq<string>) returns (n: string)
    requires |numbers| < |Accounts(entities)|
    ensures n in Accounts(entities) && n !in numbers
  {
    hide Accounts;
    var shown := set x | x in numbers;
    ShownAtMost(numbers);
    if Accounts(entities) <= shown {
      SubsetAtMost(Accounts(entities), shown);
    }
    n :| n in Accounts(entities) && n !in shown;
  }

  lemma {:induction false} ShownAtMost(numbers: seq<string>)
    ensures |set x | x in numbers| <= |numbers|
  {
    if numbers != [] {
      var n := |numbers| - 1;
      ShownAtMost(numbers[..n]);
      assert numbers == numbers[..n] + [numbers[n]];
      assert (set x | x in numbers) == (set x | x in numbers[..n]) + {numbers[n]};
    }
  }

  lemma SubsetAtMost(a: set<string>, b: set<string>)
    requires a <= b
    ensures |a| <= |b|
  {
    assert b == a + (b - a);
  }

  lemma LeftOutMeansCut(entities: seq<Entity>, basis: Basis, maxAccounts: nat, maxPerAccount: nat,
                        groups: seq<RingGroup>, e: Entity)
    requires IsTop(entities, basis, maxAccounts, Numbers(groups))
    requires forall i | 0 <= i < |groups| :: groups[i] == GroupOf(entities, basis, maxPerAccount, groups[i].number)
    requires e in entities && IsLeftOut(entities, groups, e)
    ensures |Accounts(entities)| > maxAccounts
            || exists i | 0 <= i < |groups| :: |Booked(entities, groups[i].number)| > maxPerAccount
  {
    hide WeightOf, OutranksNumber, Booked, Sorted;
    var n := e.account.value;
    assert AccountOf(e) == Some(n);
    if n in Numbers(groups) {
      var i :| 0 <= i < |groups| && Numbers(groups)[i] == n;
      BookedOn(entities, n);
      FirstOfSorted(Booked(entities, n), basis, maxPerAccount);
      if |Booked(entities, n)| <= maxPerAccount {
        SortedIsPermutation(Booked(entities, n), Larger(basis));
        assert multiset(groups[i].items) == multiset(Booked(entities, n));
      }
    } else {
      DroppedMeansFull(entities, Numbers(groups), n);
    }
  }

  lemma ACutPayee(entities: seq<Entity>, basis: Basis, maxAccounts: nat, maxPerAccount: nat, groups: seq<RingGroup>,
                  i: nat) returns (e: Entity)
    requires IsTop(entities, basis, maxAccounts, Numbers(groups)) && i < |groups|
    requires forall i | 0 <= i < |groups| :: groups[i] == GroupOf(entities, basis, maxPerAccount, groups[i].number)
    requires |Booked(entities, groups[i].number)| > maxPerAccount
    ensures e in entities && IsLeftOut(entities, groups, e)
  {
    hide WeightOf, OutranksNumber, Booked, Sorted, Accounts;
    var n := groups[i].number;
    var booked, shown := Booked(entities, n), groups[i].items;
    ShownIsAnAccount(entities, basis, maxAccounts, groups, i);
    AccountsAreNamed(entities);
    BookedOn(entities, n);
    FirstOfSorted(booked, basis, maxPerAccount);
    assert |multiset(shown)| < |multiset(booked)|;
    e := SmallerHasLess(multiset(shown), multiset(booked));
    assert multiset(entities)[e] > 0;
    OneWedgeEach(groups, i);
  }

  /** Numbers of wedges are distinct. */
  lemma OneWedgeEach(groups: seq<RingGroup>, i: nat)
    requires Ascending(Numbers(groups)) && i < |groups|
    ensures forall g | g in groups && g.number == groups[i].number :: g == groups[i]
  {
    forall g | g in groups && g.number == groups[i].number
      ensures g == groups[i]
    {
      var j :| 0 <= j < |groups| && groups[j] == g;
      assert Numbers(groups)[j] == Numbers(groups)[i];
      BeforeIsTotal(g.number, g.number);
    }
  }

  lemma SmallerHasLess(a: multiset<Entity>, b: multiset<Entity>) returns (e: Entity)
    requires a <= b && |a| < |b|
    ensures a[e] < b[e]
  {
    assert !(forall x :: a[x] == b[x]) by {
      assert a != b;
    }
    e :| a[e] != b[e];
  }

  lemma GroupHasItsWeight(entities: seq<Entity>, basis: Basis, maxPerAccount: nat, number: string)
    ensures GroupOf(entities, basis, maxPerAccount, number).weight == WeightOf(entities, basis, number)
  {
    hide WeightOf, Shown;
  }

  // ------------------------------------------------------------ computing it

  lemma ComparisonsSort(basis: Basis)
    ensures IsWeakOrder(Larger(basis))
    ensures IsWeakOrder(Outranks)
    ensures IsWeakOrder(ByNumber)
  {
    forall a: string, b: string
      ensures if a == b then !Before(a, b) && !Before(b, a) else Before(a, b) != Before(b, a)
    {
      BeforeIsTotal(a, b);
    }
    forall a: string, b: string, c: string | !Before(b, a) && !Before(c, b)
      ensures !Before(c, a)
    {
      if Before(c, a) && a != b && b != c {
        BeforeIsTransitive(c, a, b);
      }
    }
  }

  /** One group for each of the numbers, in any order; capped, or not yet. */
  ghost predicate Arranges(entities: seq<Entity>, basis: Basis, cap: Option<nat>, numbers: set<string>,
                           groups: seq<RingGroup>) {
    && Distinct(groups)
    && (forall g | g in groups :: g.number in numbers && g == GroupFor(entities, basis, cap, g.number))
    && (forall n | n in numbers :: GroupFor(entities, basis, cap, n) in groups)
  }

  function GroupFor(entities: seq<Entity>, basis: Basis, cap: Option<nat>, number: string): (g: RingGroup)
    ensures g.number == number && g.weight == WeightOf(entities, basis, number)
  {
    match cap
    case None => FullGroup(entities, basis, number)
    case Some(k) => GroupOf(entities, basis, k, number)
  }

  lemma RearrangedGroups(entities: seq<Entity>, basis: Basis, cap: Option<nat>, numbers: set<string>,
                         groups: seq<RingGroup>, before: (RingGroup, RingGroup) -> bool)
    requires Arranges(entities, basis, cap, numbers, groups)
    ensures Arranges(entities, basis, cap, numbers, Sorted(groups, before))
  {
    hide GroupFor, Sorted;
    SortedIsPermutation(groups, before);
    SortedHasSameElements(groups, before);
    DistinctMeansOnce(groups);
    DistinctMeansOnce(Sorted(groups, before));
  }

  lemma GroupsAndNumbers(entities: seq<Entity>, basis: Basis, cap: Option<nat>, numbers: set<string>,
                         groups: seq<RingGroup>)
    requires Arranges(entities, basis, cap, numbers, groups)
    ensures |groups| == |numbers| && Distinct(Numbers(groups))
    ensures forall n :: n in Numbers(groups) <==> n in numbers
  {
    hide GroupFor;
    var s := Numbers(groups);
    assert forall i | 0 <= i < |groups| :: groups[i] in groups && s[i] == groups[i].number;
    forall n | n in numbers
      ensures n in s
    {
      var i :| 0 <= i < |groups| && groups[i] == GroupFor(entities, basis, cap, n);
      assert s[i] == n;
    }
    SetOfDistinct(s, numbers);
  }

  /** The groups of the Map, one for each account. */
  lemma BucketsArrange(entities: seq<Entity>, buckets: seq<Group<string, Entity>>, basis: Basis, groups: seq<RingGroup>)
    requires IsGroupedBy(entities, AccountOf, buckets) && |groups| == |buckets|
    requires forall i | 0 <= i < |buckets| ::
               groups[i] ==
                 RingGroup(buckets[i].key, Sorted(buckets[i].items, Larger(basis)),
                           SumMagnitude(buckets[i].items, basis))
    ensures Arranges(entities, basis, None, Accounts(entities), groups)
  {
    hide Sorted, SumMagnitude;
    forall i | 0 <= i < |groups|
      ensures groups[i] == GroupFor(entities, basis, None, groups[i].number) && groups[i].number in Accounts(entities)
    {
      BucketIsAnAccount(entities, buckets, i);
    }
    forall n | n in Accounts(entities)
      ensures GroupFor(entities, basis, None, n) in groups
    {
      var e :| e in entities && AccountOf(e) == Some(n);
      var i :| 0 <= i < |buckets| && buckets[i].key == AccountOf(e).value;
      assert groups[i] == GroupFor(entities, basis, None, n);
    }
  }

  lemma BucketIsAnAccount(entities: seq<Entity>, buckets: seq<Group<string, Entity>>, i: nat)
    requires IsGroupedBy(entities, AccountOf, buckets) && i < |buckets|
    ensures buckets[i].key in Accounts(entities) && buckets[i].items == Booked(entities, buckets[i].key)
  {
    ItemsOfMembers(entities, AccountOf, buckets[i].key);
    var e := buckets[i].items[0];
    assert e in ItemsOf(entities, AccountOf, buckets[i].key);
  }

  lemma BucketsDecideTheBasis(entities: seq<Entity>, buckets: seq<Group<string, Entity>>)
    requires IsGroupedBy(entities, AccountOf, buckets)
    ensures BasisOf(entities) ==
              if |buckets| > 0 && forall i | 0 <= i < |buckets| :: SumMagnitude(buckets[i].items, Amount) > 0
              then Amount else Volume
  {
    hide SumMagnitude, Booked;
    forall i | 0 <= i < |buckets|
      ensures buckets[i].key in Accounts(entities)
      ensures SumMagnitude(buckets[i].items, Amount) == WeightOf(entities, Amount, buckets[i].key)
    {
      BucketIsAnAccount(entities, buckets, i);
    }
    forall n | n in Accounts(entities)
      ensures exists i :: 0 <= i < |buckets| && buckets[i].key == n
    {
      var e :| e in entities && AccountOf(e) == Some(n);
    }
    if i: nat :| i < |buckets| && SumMagnitude(buckets[i].items, Amount) == 0 {
      assert WeightOf(entities, Amount, buckets[i].key) == 0;
    }
    if n :| n in Accounts(entities) && WeightOf(entities, Amount, n) == 0 {
      var i :| 0 <= i < |buckets| && buckets[i].key == n;
      assert SumMagnitude(buckets[i].items, Amount) == 0;
    }
    assert |buckets| > 0 ==> buckets[0].key in Accounts(entities);
  }

  /** The first groups in rank order, of which none is outranked by a later one. */
  lemma TopGroups(entities: seq<Entity>, basis: Basis, groups: seq<RingGroup>, k: nat)
    requires Arranges(entities, basis, None, Accounts(entities), groups) && InOrder(groups, Outranks) && k <= |groups|
    ensures var shown := set g | g in groups[..k] :: g.number;
            && Arranges(entities, basis, None, shown, groups[..k]) && shown <= Accounts(entities)
            && forall n, d | n in shown && d in Accounts(entities) && d !in shown ::
              OutranksNumber(entities, basis, n, d)
  {
    hide Sorted, Booked, GroupFor;
    var top := groups[..k];
    var shown := set g | g in top :: g.number;
    assert forall g | g in top :: g in groups;
    assert forall i | 0 <= i < k :: groups[i] in top;
    forall n | n in shown
      ensures GroupFor(entities, basis, None, n) in top
    {
      var g :| g in top && g.number == n;
      assert g == GroupFor(entities, basis, None, n);
    }
    forall n, d | n in shown && d in Accounts(entities) && d !in shown
      ensures OutranksNumber(entities, basis, n, d)
    {
      var i :| 0 <= i < k && groups[i].number == n;
      var j :| 0 <= j < |groups| && groups[j] == GroupFor(entities, basis, None, d);
      assert groups[j].number == d;
      assert j >= k;
      assert groups[i] in groups;
      EarlierOutranks(entities, basis, groups, i, j);
    }
  }

  lemma EarlierOutranks(entities: seq<Entity>, basis: Basis, groups: seq<RingGroup>, i: nat, j: nat)
    requires InOrder(groups, Outranks) && i < j < |groups| && groups[i].number != groups[j].number
    requires groups[i] == GroupFor(entities, basis, None, groups[i].number)
    requires groups[j] == GroupFor(entities, basis, None, groups[j].number)
    ensures OutranksNumber(entities, basis, groups[i].number, groups[j].number)
  {
    hide GroupFor, WeightOf;
    assert !Outranks(groups[j], groups[i]);
    BeforeIsTotal(groups[i].number, groups[j].number);
  }

  lemma TrimmedGroups(entities: seq<Entity>, basis: Basis, cap: nat, shown: set<string>,
                      full: seq<RingGroup>, groups: seq<RingGroup>)
    requires Arranges(entities, basis, None, shown, full) && |groups| == |full|
    requires forall i | 0 <= i < |full| :: groups[i] == Trimmed(full[i], cap)
    ensures Arranges(entities, basis, Some(cap), shown, groups)
    ensures forall i | 0 <= i < |full| ::
              full[i].number in shown && |full[i].items| == |Booked(entities, full[i].number)|
    ensures forall n | n in shown :: exists i :: 0 <= i < |full| && full[i].number == n
  {
    hide Sorted, Booked;
    forall i | 0 <= i < |full|
      ensures full[i] == GroupFor(entities, basis, None, full[i].number) && full[i].number in shown
      ensures groups[i] == GroupFor(entities, basis, Some(cap), full[i].number)
    {
      assert full[i] in full;
    }
    forall n | n in shown
      ensures exists i :: 0 <= i < |full| && full[i].number == n
      ensures GroupFor(entities, basis, Some(cap), n) in groups
    {
      var i :| 0 <= i < |full| && full[i] == GroupFor(entities, basis, None, n);
      assert groups[i] == GroupFor(entities, basis, Some(cap), n);
    }
  }

  predicate ByNumber(a: RingGroup, b: RingGroup) {
    Before(a.number, b.number)
  }

  lemma AscendingGroups(entities: seq<Entity>, basis: Basis, cap: Option<nat>, shown: set<string>,
                        groups: seq<RingGroup>)
    requires Arranges(entities, basis, cap, shown, groups) && InOrder(groups, ByNumber)
    ensures Ascending(Numbers(groups))
  {
    hide GroupFor;
    GroupsAndNumbers(entities, basis, cap, shown, groups);
    var s := Numbers(groups);
    forall i, j | 0 <= i < j < |s|
      ensures Before(s[i], s[j])
    {
      assert s[i] != s[j] && !ByNumber(groups[j], groups[i]);
      BeforeIsTotal(s[i], s[j]);
    }
  }

  lemma SelectionMeetsItsSpecification(entities: seq<Entity>, maxAccounts: nat, maxPerAccount: nat,
                                       shown: set<string>, r: Selection)
    requires r.basis == BasisOf(entities) && shown <= Accounts(entities)
    requires Arranges(entities, r.basis, Some(maxPerAccount), shown, r.groups) && Ascending(Numbers(r.groups))
    requires |shown| == if maxAccounts < |Accounts(entities)| then maxAccounts else |Accounts(entities)|
    requires forall n, d | n in shown && d in Accounts(entities) && d !in shown ::
              OutranksNumber(entities, r.basis, n, d)
    requires r.truncated <==>
              |Accounts(entities)| > maxAccounts || exists n | n in shown :: |Booked(entities, n)| > maxPerAccount
    requires r.totalWeight == if TotalWeight(r.groups) == 0 then 1 else TotalWeight(r.groups)
    requires r.maxMagnitude == Largest(AllMagnitudes(r.groups, r.basis))
    ensures IsSelection(entities, maxAccounts, maxPerAccount, r)
  {
    hide Booked, Sorted, Accounts, TotalWeight, AllMagnitudes, BasisOf, OutranksNumber;
    GroupsAndNumbers(entities, r.basis, Some(maxPerAccount), shown, r.groups);
    forall i | 0 <= i < |r.groups|
      ensures r.groups[i] == GroupOf(entities, r.basis, maxPerAccount, r.groups[i].number)
                && r.groups[i].number in shown
    {
      assert r.groups[i] in r.groups;
    }
    assert (exists n | n in shown :: |Booked(entities, n)| > maxPerAccount) <==>
           (exists i | 0 <= i < |r.groups| :: |Booked(entities, r.groups[i].number)| > maxPerAccount) by {
      if n :| n in shown && |Booked(entities, n)| > maxPerAccount {
        var i :| 0 <= i < |r.groups| && Numbers(r.groups)[i] == n;
        assert r.groups[i].number == n;
      }
    }
  }

  /** Cuts every group down to its cap; dropping an item truncates the ring. */
  method TrimItems(full: seq<RingGroup>, cap: nat, alreadyTruncated: bool)
    returns (groups: seq<RingGroup>, truncated: bool)
    ensures |groups| == |full| && forall i | 0 <= i < |full| :: groups[i] == Trimmed(full[i], cap)
    ensures truncated <==> alreadyTruncated || exists i | 0 <= i < |full| :: |full[i].items| > cap
  {
    groups, truncated := full, alreadyTruncated;
    for i := 0 to |groups|
      invariant |groups| == |full|
      invariant forall j | 0 <= j < |full| :: groups[j] == if j < i then Trimmed(full[j], cap) else full[j]
      invariant truncated <==> alreadyTruncated || exists j | 0 <= j < i :: |full[j].items| > cap
    {
      if |groups[i].items| > cap {
        truncated := true;
        groups := groups[i := groups[i].(items := groups[i].items[..cap])];
      }
    }
  }

  method SelectAccountRing(entities: seq<Entity>, maxAccounts: nat, maxPerAccount: nat) returns (r: Selection)
    ensures IsSelection(entities, maxAccounts, maxPerAccount, r) && IsMeasured(entities, maxAccounts, maxPerAccount, r)
  {
    hide IsMeasured;
    hide Booked, Sorted, Accounts, IsSelection, Arranges, IsGroupedBy, BasisOf, GroupFor, SumMagnitude, InOrder;
    hide OutranksNumber, TotalWeight, AllMagnitudes, IsWeakOrder;
    var buckets := GroupBy(entities, AccountOf);
    var basis :=
      if |buckets| > 0 && forall i | 0 <= i < |buckets| :: SumMagnitude(buckets[i].items, Amount) > 0
      then Amount else Volume;
    BucketsDecideTheBasis(entities, buckets);
    var groups := seq(|buckets|, i requires 0 <= i < |buckets| =>
      RingGroup(buckets[i].key, Sorted(buckets[i].items, Larger(basis)), SumMagnitude(buckets[i].items, basis)));
    BucketsArrange(entities, buckets, basis, groups);
    ComparisonsSort(basis);

    RearrangedGroups(entities, basis, None, Accounts(entities), groups, Outranks);
    SortedIsInOrder(groups, Outranks);
    groups := Sorted(groups, Outranks);
    GroupsAndNumbers(entities, basis, None, Accounts(entities), groups);
    var accountCount := |groups|;
    var k := if maxAccounts < accountCount then maxAccounts else accountCount;
    TopGroups(entities, basis, groups, k);
    groups := groups[..k];
    ghost var shown := set g | g in groups :: g.number;
    GroupsAndNumbers(entities, basis, None, shown, groups);

    ghost var full := groups;
    var truncated;
    groups, truncated := TrimItems(groups, maxPerAccount, accountCount > |groups|);
    TrimmedGroups(entities, basis, maxPerAccount, shown, full, groups);

    RearrangedGroups(entities, basis, Some(maxPerAccount), shown, groups, ByNumber);
    SortedIsInOrder(groups, ByNumber);
    groups := Sorted(groups, ByNumber);
    AscendingGroups(entities, basis, Some(maxPerAccount), shown, groups);
    var totalWeight := if TotalWeight(groups) == 0 then 1 else TotalWeight(groups);
    r := Selection(basis, groups, truncated, totalWeight, Largest(AllMagnitudes(groups, basis)));
    SelectionMeetsItsSpecification(entities, maxAccounts, maxPerAccount, shown, r);
    SelectionIsMeasured(entities, maxAccounts, maxPerAccount, r);
  }
}
