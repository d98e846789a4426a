/** Where the ledger graph puts its account wedges and their payees around the circle; a whole turn is a parameter. */
module WedgeLayout {
  import opened Ordering
  import opened RingSelection

  const WEDGE_GAP := 0.07
  const MAX_ACCOUNTS := 9
  const MAX_PER_ACCOUNT := 6

  datatype Account = Account(number: string, midAngle: real, arcFrom: real, arcTo: real)

  datatype Payee = Payee(account: string, entity: Entity, angle: real)

  // ------------------------------------------------------------ centre-out slots

  /** Twice the distance of a slot from the middle of n slots. */
  function OffCentre(n: nat, slot: nat): nat {
    if 2 * slot >= n - 1 then 2 * slot - (n - 1) else n - 1 - 2 * slot
  }

  function Nearer(n: nat): (nat, nat) -> bool {
    (a: nat, b: nat) => OffCentre(n, a) < OffCentre(n, b)
  }

  function Slots(n: nat): (r: seq<nat>)
    ensures |r| == n
  {
    seq(n, i => i)
  }

  /** The slot of each rank. */
  function CenterOut(n: nat): (r: seq<nat>)
    ensures |r| == n
  {
    Sorted(Slots(n), Nearer(n))
  }

  /** Every slot is given to exactly one rank, and higher ranks never sit further out than lower ones. */
  lemma CenterOutIsAPermutation(n: nat)
    ensures Distinct(CenterOut(n)) && forall slot: nat :: slot in CenterOut(n) <==> slot < n
    ensures forall i, j | 0 <= i < j < n :: OffCentre(n, CenterOut(n)[i]) <= OffCentre(n, CenterOut(n)[j])
  {
    hide Sorted;
    var order := CenterOut(n);
    SortedIsPermutation(Slots(n), Nearer(n));
    SortedHasSameElements(Slots(n), Nearer(n));
    SortedIsInOrder(Slots(n), Nearer(n));
    DistinctMeansOnce(Slots(n));
    DistinctMeansOnce(order);
    forall slot: nat
      ensures slot in Slots(n) <==> slot < n
    {
      assert slot < n ==> Slots(n)[slot] == slot;
    }
    assert forall i, j | 0 <= i < j < n :: !Nearer(n)(order[j], order[i]);
  }

  /** Of two slots that are equally far out, the one to the left goes to the higher rank. */
  lemma LeftBeforeRight(n: nat, i: nat, j: nat)
    requires i < n && j < n && CenterOut(n)[i] < CenterOut(n)[j]
    requires OffCentre(n, CenterOut(n)[i]) == OffCentre(n, CenterOut(n)[j])
    ensures i < j
  {
    CenterOutIsAPermutation(n);
    var order := CenterOut(n);
    assert order[i] in order && order[j] in order;
    assert Slots(n)[order[i]] == order[i] && Slots(n)[order[j]] == order[j];
    SortedIsStable(Slots(n), Nearer(n), order[i], order[j], i, j);
  }

  // ------------------------------------------------------------ the layout

  /** The part of a turn that is left for wedges between the gaps. */
  function Spans(ring: Selection, turn: real): real {
    turn - WEDGE_GAP * (|ring.groups| as real)
  }

  function Width(ring: Selection, turn: real, i: nat): real
    requires i < |ring.groups| && ring.totalWeight > 0
  {
    Spans(ring, turn) * (ring.groups[i].weight as real / ring.totalWeight as real)
  }

  /** The angle at which wedge i starts. */
  function Start(ring: Selection, turn: real, i: nat): real
    requires i <= |ring.groups| && ring.totalWeight > 0
  {
    if i == 0 then -(turn / 4.0) + WEDGE_GAP / 2.0
    else Start(ring, turn, i - 1) + Width(ring, turn, i - 1) + WEDGE_GAP
  }

  function End(ring: Selection, turn: real, i: nat): real
    requires i < |ring.groups| && ring.totalWeight > 0
  {
    Start(ring, turn, i) + Width(ring, turn, i)
  }

  /** How far along a wedge, from 0 to 1, its payee of a rank sits. */
  function Along(n: nat, rank: nat): real
    requires rank < n
  {
    if n == 1 then 0.5 else CenterOut(n)[rank] as real / (n - 1) as real
  }

  function PayeeAngle(start: real, width: real, n: nat, rank: nat): real
    requires rank < n
  {
    var inner := width * 0.16;
    start + inner + Along(n, rank) * (width - 2.0 * inner)
  }

  function AccountAt(ring: Selection, turn: real, i: nat): Account
    requires i < |ring.groups| && ring.totalWeight > 0
  {
    var start, width := Start(ring, turn, i), Width(ring, turn, i);
    Account(ring.groups[i].number, start + width / 2.0, start + width * 0.04, start + width * 0.96)
  }

  function PlacedIn(g: RingGroup, start: real, width: real): (r: seq<Payee>)
    ensures |r| == |g.items|
  {
    seq(|g.items|, rank requires 0 <= rank < |g.items| =>
      Payee(g.number, g.items[rank], PayeeAngle(start, width, |g.items|, rank)))
  }

  function WedgePayees(ring: Selection, turn: real, i: nat): seq<Payee>
    requires i < |ring.groups| && ring.totalWeight > 0
  {
    PlacedIn(ring.groups[i], Start(ring, turn, i), Width(ring, turn, i))
  }

  function PayeeAt(ring: Selection, turn: real, i: nat, rank: nat): (r: Payee)
    requires i < |ring.groups| && ring.totalWeight > 0 && rank < |ring.groups[i].items|
    ensures r.account == ring.groups[i].number && r.entity == ring.groups[i].items[rank]
    ensures r.angle == PayeeAngle(Start(ring, turn, i), Width(ring, turn, i), |ring.groups[i].items|, rank)
  {
    WedgePayees(ring, turn, i)[rank]
  }

  function PayeesBefore(ring: Selection, turn: real, i: nat): seq<Payee>
    requires i <= |ring.groups| && ring.totalWeight > 0
  {
    if i == 0 then [] else PayeesBefore(ring, turn, i - 1) + WedgePayees(ring, turn, i - 1)
  }

  method PlacePayees(g: RingGroup, start: real, width: real) returns (payees: seq<Payee>)
    ensures payees == PlacedIn(g, start, width)
  {
    hide CenterOut;
    payees := [];
    var n := |g.items|;
    var inner := width * 0.16;
    var order := CenterOut(n);
    for rank := 0 to n
      invariant |payees| == rank
      invariant forall k | 0 <= k < rank :: payees[k] == PlacedIn(g, start, width)[k]
    {
      var slot := order[rank];
      var t := if n == 1 then 0.5 else slot as real / (n - 1) as real;
      var pa := start + inner + t * (width - 2.0 * inner);
      assert t == Along(n, rank);
      assert PlacedIn(g, start, width)[rank] == Payee(g.number, g.items[rank], pa);
      payees := payees + [Payee(g.number, g.items[rank], pa)];
    }
  }

  lemma WidthIs(ring: Selection, turn: real, i: nat, width: real)
    requires i < |ring.groups| && ring.totalWeight > 0
    requires width ==
              (turn - WEDGE_GAP * (|ring.groups| as real)) * (ring.groups[i].weight as real / ring.totalWeight as real)
    ensures width == Width(ring, turn, i)
  {
  }

  method BuildModel(entities: seq<Entity>, turn: real)
    returns (ring: Selection, accounts: seq<Account>, payees: seq<Payee>)
    ensures IsSelection(entities, MAX_ACCOUNTS, MAX_PER_ACCOUNT, ring)
    ensures IsMeasured(entities, MAX_ACCOUNTS, MAX_PER_ACCOUNT, ring)
    ensures ring.totalWeight > 0
    ensures |accounts| == |ring.groups| && forall i | 0 <= i < |accounts| :: accounts[i] == AccountAt(ring, turn, i)
    ensures payees == PayeesBefore(ring, turn, |ring.groups|)
    ensures IsCapped(entities, ring)
  {
    hide IsCapped;
    hide IsSelection, IsMeasured, PlacedIn, Width;
    ring := SelectAccountRing(entities, MAX_ACCOUNTS, MAX_PER_ACCOUNT);
    TotalOf(entities, ring);
    CapsOf(entities, ring);
    accounts, payees := [], [];
    var spans := turn - WEDGE_GAP * (|ring.groups| as real);
    var angle := -(turn / 4.0) + WEDGE_GAP / 2.0;
    for gi := 0 to |ring.groups|
      invariant angle == Start(ring, turn, gi)
      invariant |accounts| == gi && forall i | 0 <= i < gi :: accounts[i] == AccountAt(ring, turn, i)
      invariant payees == PayeesBefore(ring, turn, gi)
    {
      var g := ring.groups[gi];
      var width := spans * (g.weight as real / ring.totalWeight as real);
      WidthIs(ring, turn, gi, width);
      var mid := angle + width / 2.0;
      accounts := accounts + [Account(g.number, mid, angle + width * 0.04, angle + width * 0.96)];
      var placed := PlacePayees(g, angle, width);
      payees := payees + placed;
      angle := angle + (width + WEDGE_GAP);
    }
  }

  // ------------------------------------------------------------ wedges

  /** The ring is laid out on a turn whose gaps leave room for wedges. */
  ghost predicate Fits(ring: Selection, turn: real) {
    ring.totalWeight > 0 && Spans(ring, turn) > 0.0
  }

  /** With at most nine accounts the gaps always leave room in a turn of two pi. */
  lemma NineGapsFit(entities: seq<Entity>, ring: Selection, turn: real)
    requires IsSelection(entities, MAX_ACCOUNTS, MAX_PER_ACCOUNT, ring) && turn > 6.0
    ensures Fits(ring, turn)
  {
  }

  lemma Share(spans: real, a: real, b: real, total: real)
    requires total > 0.0
    ensures spans * (a / total) + spans * (b / total) == spans * ((a + b) / total)
  {
    assert (a + b) / total == a / total + b / total;
  }

  lemma ShareIsPositive(spans: real, a: real, total: real)
    requires total > 0.0 && spans > 0.0 && a >= 0.0
    ensures spans * (a / total) >= 0.0 && (spans * (a / total) > 0.0 <==> a > 0.0)
  {
    assert a / total >= 0.0;
    assert a > 0.0 ==> a / total > 0.0;
  }

  /** Where a wedge starts, by the weights before it. */
  lemma {:induction false} StartByWeight(ring: Selection, turn: real, i: nat)
    requires ring.totalWeight > 0 && i <= |ring.groups|
    ensures Start(ring, turn, i) - Start(ring, turn, 0) ==
              Spans(ring, turn) * (TotalWeight(ring.groups[..i]) as real / ring.totalWeight as real)
              + WEDGE_GAP * (i as real)
  {
    if i > 0 {
      StartByWeight(ring, turn, i - 1);
      assert ring.groups[..i][..i - 1] == ring.groups[..i - 1];
      Share(Spans(ring, turn), TotalWeight(ring.groups[..i - 1]) as real, ring.groups[i - 1].weight as real,
            ring.totalWeight as real);
    }
  }

  /** Wedges do not overlap: each ends at least a gap before any later one starts. */
  lemma {:induction false} WedgesAreApart(ring: Selection, turn: real, i: nat, j: nat)
    requires Fits(ring, turn) && i < j < |ring.groups|
    ensures Width(ring, turn, i) >= 0.0 && (Width(ring, turn, i) > 0.0 <==> ring.groups[i].weight > 0)
    ensures if j == i + 1 then Start(ring, turn, j) == End(ring, turn, i) + WEDGE_GAP
            else Start(ring, turn, j) >= End(ring, turn, i) + WEDGE_GAP
  {
    ShareIsPositive(Spans(ring, turn), ring.groups[i].weight as real, ring.totalWeight as real);
    if j > i + 1 {
      ShareIsPositive(Spans(ring, turn), ring.groups[j - 1].weight as real, ring.totalWeight as real);
      WedgesAreApart(ring, turn, i, j - 1);
    }
  }

  /**
   Wedges and gaps fill exactly one turn, exactly when some shown account has weight. The seam, the middle of the gap
   in front of the first wedge, is at the top: a quarter of a turn before zero.
   */
  lemma WedgesFillTheTurn(entities: seq<Entity>, ring: Selection, turn: real)
    requires IsSelection(entities, MAX_ACCOUNTS, MAX_PER_ACCOUNT, ring) && turn > 6.0
    ensures Start(ring, turn, |ring.groups|) == Start(ring, turn, 0) + turn <==> TotalWeight(ring.groups) > 0
    ensures 4.0 * (Start(ring, turn, 0) - WEDGE_GAP / 2.0) == -turn
  {
    hide IsSelection, Start, Spans;
    NineGapsFit(entities, ring, turn);
    SeamIsAtTheTop(ring, turn);
    TotalOf(entities, ring);
    var n, weight := |ring.groups|, TotalWeight(ring.groups);
    StartByWeight(ring, turn, n);
    assert ring.groups[..n] == ring.groups;
    SpansAndGaps(ring, turn);
    WholeShare(Spans(ring, turn), weight as real, ring.totalWeight as real);
  }

  lemma SeamIsAtTheTop(ring: Selection, turn: real)
    requires ring.totalWeight > 0
    ensures 4.0 * (Start(ring, turn, 0) - WEDGE_GAP / 2.0) == -turn
  {
  }

  lemma SpansAndGaps(ring: Selection, turn: real)
    ensures Spans(ring, turn) + WEDGE_GAP * (|ring.groups| as real) == turn
  {
  }

  /** The shares of all wedges are the whole, unless nothing has weight. */
  lemma WholeShare(spans: real, weight: real, total: real)
    requires spans > 0.0 && total == if weight == 0.0 then 1.0 else weight
    ensures spans * (weight / total) == if weight == 0.0 then 0.0 else spans
  {
    assert weight / total == if weight == 0.0 then 0.0 else 1.0;
  }

  lemma TotalOf(entities: seq<Entity>, ring: Selection)
    requires IsSelection(entities, MAX_ACCOUNTS, MAX_PER_ACCOUNT, ring)
    ensures ring.totalWeight == if TotalWeight(ring.groups) == 0 then 1 else TotalWeight(ring.groups)
  {
  }

  /** Wedges are as wide as their accounts weigh, in one proportion. */
  lemma WidthsAreProportional(ring: Selection, turn: real, i: nat, j: nat)
    requires Fits(ring, turn) && i < |ring.groups| && j < |ring.groups|
    ensures Width(ring, turn, i) * (ring.groups[j].weight as real) ==
              Width(ring, turn, j) * (ring.groups[i].weight as real)
  {
    InProportion(Spans(ring, turn), ring.groups[i].weight as real, ring.groups[j].weight as real,
                 ring.totalWeight as real);
  }

  lemma InProportion(spans: real, a: real, b: real, total: real)
    requires total > 0.0
    ensures (spans * (a / total)) * b == (spans * (b / total)) * a
  {
    assert (a / total) * b == (b / total) * a;
  }

  /** An account's arc covers its wedge but for a twenty-fifth of it on either side, and its node is in the middle. */
  lemma ArcLiesInItsWedge(ring: Selection, turn: real, i: nat)
    requires Fits(ring, turn) && i < |ring.groups|
    ensures var account, start, end := AccountAt(ring, turn, i), Start(ring, turn, i), End(ring, turn, i);
            && account.number == ring.groups[i].number
            && account.midAngle - start == end - account.midAngle
            && 25.0 * (account.arcFrom - start) == end - start == 25.0 * (end - account.arcTo)
            && start <= account.arcFrom <= account.midAngle <= account.arcTo <= end
  {
    hide Start, Spans;
    WidthIsPositive(ring, turn, i);
  }

  /** Nine accounts at most, and six payees of each. */
  ghost predicate IsCapped(entities: seq<Entity>, ring: Selection) {
    var n := |RingSelection.Accounts(entities)|;
    |ring.groups| == (if n < 9 then n else 9) && forall g | g in ring.groups :: |g.items| <= 6
  }

  lemma CapsOf(entities: seq<Entity>, ring: Selection)
    requires IsSelection(entities, MAX_ACCOUNTS, MAX_PER_ACCOUNT, ring)
    requires IsMeasured(entities, MAX_ACCOUNTS, MAX_PER_ACCOUNT, ring)
    ensures IsCapped(entities, ring)
  {
    hide BasisOf, RingSelection.Accounts, WeightOf;
    assert |Numbers(ring.groups)| == |ring.groups|;
    assert forall g | g in ring.groups :: ShowsTheLargest(entities, ring.basis, MAX_PER_ACCOUNT, g);
  }

  // ------------------------------------------------------------ payees

  /** The payees laid out are those that the shown groups hold, each by its own wedge. */
  lemma {:induction false} EveryPayeeIsPlaced(ring: Selection, turn: real, k: nat, p: Payee)
    requires ring.totalWeight > 0 && k <= |ring.groups|
    ensures p in PayeesBefore(ring, turn, k) <==>
            exists i, rank | 0 <= i < k && 0 <= rank < |ring.groups[i].items| :: p == PayeeAt(ring, turn, i, rank)
  {
    if k > 0 {
      EveryPayeeIsPlaced(ring, turn, k - 1, p);
      var placed := WedgePayees(ring, turn, k - 1);
      if p in placed {
        var rank :| 0 <= rank < |placed| && placed[rank] == p;
        assert p == PayeeAt(ring, turn, k - 1, rank);
      }
    }
  }

  lemma AlongBounds(n: nat, rank: nat)
    requires rank < n
    ensures 0.0 <= Along(n, rank) <= 1.0
  {
    CenterOutIsAPermutation(n);
    hide CenterOut;
    assert CenterOut(n)[rank] in CenterOut(n);
    if n > 1 {
      FractionBounds(CenterOut(n)[rank], n - 1);
    }
  }

  lemma FractionBounds(a: nat, b: nat)
    requires a <= b && b > 0
    ensures 0.0 <= a as real / b as real <= 1.0
  {
  }

  lemma Between(t: real, w: real)
    requires 0.0 <= t <= 1.0 && w >= 0.0
    ensures 0.0 <= t * w <= w
  {
  }

  lemma AngleInside(start: real, width: real, n: nat, rank: nat)
    requires rank < n && width >= 0.0
    ensures start + 0.16 * width <= PayeeAngle(start, width, n, rank) <= start + width - 0.16 * width
  {
    hide CenterOut, Along;
    AlongBounds(n, rank);
    Between(Along(n, rank), width - 2.0 * (width * 0.16));
  }

  /** Every payee sits inside its own account's wedge, 0.16 of its width or more from either side. */
  lemma PayeesStayInside(ring: Selection, turn: real, i: nat, rank: nat)
    requires Fits(ring, turn) && i < |ring.groups| && rank < |ring.groups[i].items|
    ensures var angle, width := PayeeAt(ring, turn, i, rank).angle, Width(ring, turn, i);
            Start(ring, turn, i) + 0.16 * width <= angle <= End(ring, turn, i) - 0.16 * width
  {
    ShareIsPositive(Spans(ring, turn), ring.groups[i].weight as real, ring.totalWeight as real);
    hide PayeeAngle, Start, Spans;
    AngleInside(Start(ring, turn, i), Width(ring, turn, i), |ring.groups[i].items|, rank);
  }

  /**
   The payees of a wedge are spread evenly: the leftmost slot is 0.16 of the wedge in, and the slots share the other
   0.68 in equal steps.
   */
  lemma PayeesAreSpreadEvenly(ring: Selection, turn: real, i: nat, rank: nat)
    requires Fits(ring, turn) && i < |ring.groups| && rank < |ring.groups[i].items| && |ring.groups[i].items| > 1
    ensures var n, start, width := |ring.groups[i].items|, Start(ring, turn, i), Width(ring, turn, i);
            (PayeeAt(ring, turn, i, rank).angle - start - 0.16 * width) * ((n - 1) as real) ==
              0.68 * width * (CenterOut(n)[rank] as real)
  {
    hide CenterOut, Start, Width;
    var n, width := |ring.groups[i].items|, Width(ring, turn, i);
    EvenSteps(CenterOut(n)[rank] as real, (n - 1) as real, width);
  }

  lemma EvenSteps(slot: real, steps: real, width: real)
    requires steps > 0.0
    ensures ((slot / steps) * (width - 2.0 * (width * 0.16))) * steps == 0.68 * width * slot
  {
    assert (slot / steps) * steps == slot;
  }

  lemma AlongIsDistinct(n: nat, a: nat, b: nat)
    requires a < b < n
    ensures Along(n, a) != Along(n, b)
  {
    CenterOutIsAPermutation(n);
    hide CenterOut;
    var x, y, m := CenterOut(n)[a] as real, CenterOut(n)[b] as real, (n - 1) as real;
    assert x / m == y / m ==> x == y;
  }

  lemma ScaledApart(s: real, t: real, w: real)
    requires s != t && w > 0.0
    ensures s * w != t * w
  {
    assert (s - t) * w != 0.0;
  }

  lemma AnglesApart(start: real, width: real, n: nat, a: nat, b: nat)
    requires a < n && b < n && a != b && width > 0.0
    ensures PayeeAngle(start, width, n, a) != PayeeAngle(start, width, n, b)
  {
    hide CenterOut, Along;
    if a < b {
      AlongIsDistinct(n, a, b);
    } else {
      AlongIsDistinct(n, b, a);
    }
    ScaledApart(Along(n, a), Along(n, b), width - 2.0 * (width * 0.16));
  }

  /** No two payees share an angle, whether of one account that has weight or of two. */
  lemma PayeesAreApart(ring: Selection, turn: real, i: nat, a: nat, j: nat, b: nat)
    requires Fits(ring, turn) && i <= j < |ring.groups|
    requires a < |ring.groups[i].items| && b < |ring.groups[j].items| && (i, a) != (j, b)
    requires i == j ==> ring.groups[i].weight > 0
    ensures PayeeAt(ring, turn, i, a).angle != PayeeAt(ring, turn, j, b).angle
  {
    WidthIsPositive(ring, turn, i);
    WidthIsPositive(ring, turn, j);
    hide PayeeAngle, Start, Width, Fits;
    if i == j {
      AnglesApart(Start(ring, turn, i), Width(ring, turn, i), |ring.groups[i].items|, a, b);
    } else {
      PayeesStayInside(ring, turn, i, a);
      PayeesStayInside(ring, turn, j, b);
      WedgesAreApart(ring, turn, i, j);
    }
  }

  lemma WidthIsPositive(ring: Selection, turn: real, i: nat)
    requires Fits(ring, turn) && i < |ring.groups|
    ensures Width(ring, turn, i) >= 0.0 && (Width(ring, turn, i) > 0.0 <==> ring.groups[i].weight > 0)
  {
    ShareIsPositive(Spans(ring, turn), ring.groups[i].weight as real, ring.totalWeight as real);
  }

  /** The largest payee sits at the angle of its account's node, exactly when the wedge shows an odd number of them. */
  lemma LargestIsCentredExactlyWhen(ring: Selection, turn: real, i: nat)
    requires Fits(ring, turn) && i < |ring.groups| && ring.groups[i].items != [] && ring.groups[i].weight > 0
    ensures PayeeAt(ring, turn, i, 0).angle == AccountAt(ring, turn, i).midAngle <==> |ring.groups[i].items| % 2 == 1
  {
    hide CenterOut;
    ShareIsPositive(Spans(ring, turn), ring.groups[i].weight as real, ring.totalWeight as real);
    var n, width := |ring.groups[i].items|, Width(ring, turn, i);
    FirstSlot(n);
    var t := Along(n, 0);
    assert t == 0.5 <==> n % 2 == 1 by {
      if n > 1 {
        HalfFraction(CenterOut(n)[0], n - 1);
      }
    }
    if t != 0.5 {
      ScaledApart(t, 0.5, width - 2.0 * (width * 0.16));
    }
  }

  lemma HalfFraction(a: nat, b: nat)
    requires b > 0
    ensures a as real / b as real == 0.5 <==> 2 * a == b
  {
    if a as real / b as real == 0.5 {
      assert a as real == 0.5 * b as real;
    }
  }

  lemma FirstSlot(n: nat)
    requires n > 0
    ensures 2 * CenterOut(n)[0] == n - 1 <==> n % 2 == 1
  {
    CenterOutIsAPermutation(n);
    hide CenterOut;
    if n % 2 == 1 {
      var m := n / 2;
      assert m in CenterOut(n);
      var r :| 0 <= r < n && CenterOut(n)[r] == m;
      assert OffCentre(n, CenterOut(n)[0]) <= OffCentre(n, m) == 0;
    }
  }
}
