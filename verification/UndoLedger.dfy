/**
 The ledger an undone year-end closing works on, the undo as a sequence of steps on values, and what those steps
 do to entries, periods and balances.
 */
module UndoLedger {
  import opened Wrappers

  datatype Source = YearEnd | OpeningBalance | ResultAppropriation | Storno | AnotherSource

  datatype Status = Draft | Posted | Reversed | Cancelled

  /** A journal entry. Its number is its place in voucher order; amounts are debit minus credit, per account. */
  datatype Entry = Entry(period: nat, source: Source, status: Status, amounts: map<string, int>,
                         reverses: Option<nat>, reversedBy: Option<nat>)

  datatype Period = Period(previous: Option<nat>, starts: int, ends: int,
                           closed: bool, closedAt: Option<int>, lockedAt: Option<int>, closing: Option<nat>,
                           opening: Option<nat>, openingSet: bool, continuity: Option<bool>)

  datatype Books = Books(entries: seq<Entry>, periods: map<nat, Period>)

  predicate IsLocked(period: Period) {
    period.closed || period.lockedAt.Some?
  }

  predicate IsPosted(b: Books, id: nat) {
    id < |b.entries| && b.entries[id].status == Posted
  }

  // ------------------------------------------------------------ single changes, and what the database demands of them

  function Mirror(amounts: map<string, int>): map<string, int> {
    map account | account in amounts :: -amounts[account]
  }

  function StornoOf(e: Entry, id: nat): Entry {
    Entry(e.period, Storno, Posted, Mirror(e.amounts), Some(id), None)
  }

  function Unlink(periods: map<nat, Period>, id: nat): map<nat, Period> {
    map q | q in periods ::
      if periods[q].opening == Some(id) then periods[q].(opening := None, openingSet := false) else periods[q]
  }

  /** Posts a mirrored storno, marks the entry reversed, and drops an opening balance link that names it. */
  function Reverse(b: Books, id: nat): Books {
    if id >= |b.entries| then b
    else
      var e := b.entries[id];
      Books(b.entries[id := e.(status := Reversed, reversedBy := Some(|b.entries|))] + [StornoOf(e, id)],
            if e.source == OpeningBalance then Unlink(b.periods, id) else b.periods)
  }

  /** Only a posted entry that is no storno, in a period that is neither closed nor locked. */
  predicate MayReverse(b: Books, id: nat) {
    && IsPosted(b, id)
    && b.entries[id].source != Storno
    && b.entries[id].period in b.periods
    && !IsLocked(b.periods[b.entries[id].period])
  }

  function ResetContinuity(b: Books, q: nat): Books {
    if q in b.periods then b.(periods := b.periods[q := b.periods[q].(continuity := None)]) else b
  }

  function Reopen(b: Books, q: nat): Books {
    if q in b.periods
    then b.(periods := b.periods[q := b.periods[q].(closed := false, closedAt := None, lockedAt := None)])
    else b
  }

  function Detach(b: Books, q: nat): Books {
    if q in b.periods then b.(periods := b.periods[q := b.periods[q].(closing := None)]) else b
  }

  predicate IsStornoOf(b: Books, s: nat, id: nat) {
    IsPosted(b, s) && b.entries[s].source == Storno && b.entries[s].reverses == Some(id)
  }

  predicate HasStorno(b: Books, id: nat) {
    exists s | 0 <= s < |b.entries| :: IsStornoOf(b, s, id)
  }

  /** A closing entry may leave its period only when it is reversed by a posted storno. */
  predicate MayDetach(b: Books, closing: nat) {
    closing < |b.entries| && b.entries[closing].status == Reversed && HasStorno(b, closing)
  }

  // ------------------------------------------------------------ what the undo finds

  /** The one element of a set, if it has just one: how a lookup of at most one row answers. */
  function Only(found: set<nat>): (r: Option<nat>)
    ensures r.Some? <==> |found| == 1
    ensures r.Some? ==> found == {r.value}
  {
    if |found| != 1 then None
    else
      var q :| q in found;
      assert found == {q} by {
        assert |found - {q}| == 0;
      }
      Some(q)
  }

  /** Which of an attempt's lookups are answered; the undo goes on as if an unanswered one had found nothing. */
  datatype Answers = Answers(chain: bool, date: bool, entries: bool)

  const ALL_ANSWERED := Answers(true, true, true)

  /** The one period chained to this one, or else the one that starts the day after it ends. */
  function NextPeriod(b: Books, p: nat, answered: Answers): (r: Option<nat>)
    requires p in b.periods
    ensures r.Some? ==> r.value in b.periods
  {
    var chained := if answered.chain then Only(ChainedTo(b, p)) else None;
    if chained.Some? then chained
    else if answered.date then Only(StartingOn(b, b.periods[p].ends + 1))
    else None
  }

  function ChainedTo(b: Books, p: nat): set<nat> {
    set q | q in b.periods && b.periods[q].previous == Some(p)
  }

  function StartingOn(b: Books, day: int): set<nat> {
    set q | q in b.periods && b.periods[q].starts == day
  }

  predicate IsAppropriation(b: Books, n: nat, id: nat) {
    IsPosted(b, id) && b.entries[id].period == n && b.entries[id].source == ResultAppropriation
  }

  predicate IsPostedOpening(b: Books, n: nat, id: nat) {
    IsPosted(b, id) && b.entries[id].period == n && b.entries[id].source == OpeningBalance
  }

  /** A posted opening balance entry, matched by the period's link when there is one. */
  predicate IsOpening(b: Books, n: nat, id: nat)
    requires n in b.periods
  {
    IsPostedOpening(b, n, id) && (b.periods[n].opening == None || b.periods[n].opening == Some(id))
  }

  /** The appropriation the scan is left with after the first k entries: the last one wins. */
  function LastAppropriation(b: Books, n: nat, k: nat): (r: Option<nat>)
    ensures match r
            case Some(id) => id < k && IsAppropriation(b, n, id) && forall i | id < i < k :: !IsAppropriation(b, n, i)
            case None => forall i | 0 <= i < k :: !IsAppropriation(b, n, i)
  {
    if k == 0 then None
    else if IsAppropriation(b, n, k - 1) then Some(k - 1)
    else LastAppropriation(b, n, k - 1)
  }

  function LastOpening(b: Books, n: nat, k: nat): (r: Option<nat>)
    requires n in b.periods
    ensures match r
            case Some(id) => id < k && IsOpening(b, n, id) && forall i | id < i < k :: !IsOpening(b, n, i)
            case None => forall i | 0 <= i < k :: !IsOpening(b, n, i)
  {
    if k == 0 then None
    else if IsOpening(b, n, k - 1) then Some(k - 1)
    else LastOpening(b, n, k - 1)
  }

  datatype Plan = Plan(period: nat, next: Option<nat>, appropriation: Option<nat>, opening: Option<nat>,
                       closing: nat, reopen: bool, reverseClosing: bool)

  predicate HasClosing(b: Books, p: nat) {
    p in b.periods && b.periods[p].closing.Some?
  }

  /** What an attempt reads before it changes anything. */
  function PlanRead(b: Books, p: nat, answered: Answers): Plan
    requires HasClosing(b, p)
  {
    var closing := b.periods[p].closing.value;
    var next := NextPeriod(b, p, answered);
    var scanned := next.Some? && answered.entries;
    Plan(p, next,
         if scanned then LastAppropriation(b, next.value, |b.entries|) else None,
         if scanned then LastOpening(b, next.value, |b.entries|) else None,
         closing, IsLocked(b.periods[p]), IsPosted(b, closing))
  }

  function PlanOf(b: Books, p: nat): Plan
    requires HasClosing(b, p)
  {
    PlanRead(b, p, ALL_ANSWERED)
  }

  // ------------------------------------------------------------ the six steps

  /** The entry that a step reverses, if it is a reversing step with something to reverse. */
  function Target(plan: Plan, j: nat): Option<nat> {
    if j == 1 then plan.appropriation
    else if j == 2 then plan.opening
    else if j == 5 && plan.reverseClosing then Some(plan.closing)
    else None
  }

  /**
   1 reverse the appropriation, 2 reverse the opening balance, 3 reset the next period's continuity,
   4 reopen the period, 5 reverse the closing entry, 6 detach it.
   */
  function Step(plan: Plan, b: Books, j: nat): Books {
    match Target(plan, j)
    case Some(id) => Reverse(b, id)
    case None =>
      if j == 3 && plan.next.Some? then ResetContinuity(b, plan.next.value)
      else if j == 4 && plan.reopen then Reopen(b, plan.period)
      else if j == 6 then Detach(b, plan.period)
      else b
  }

  /** The database lets the step through. */
  predicate MayStep(plan: Plan, b: Books, j: nat) {
    && (Target(plan, j).Some? ==> MayReverse(b, Target(plan, j).value))
    && (j == 6 ==> MayDetach(b, plan.closing))
  }

  /** The books after the first j steps of a plan. */
  function Follow(plan: Plan, b: Books, j: nat): Books {
    if j == 0 then b else Step(plan, Follow(plan, b, j - 1), j)
  }

  /** The books after the first j steps of an attempt whose lookups are all answered. */
  function Stage(b: Books, p: nat, j: nat): Books
    requires HasClosing(b, p)
  {
    Follow(PlanOf(b, p), b, j)
  }

  const ALL_STEPS := 6

  /** What an attempt checks before it changes anything, apart from the facts outside the ledger. */
  predicate Undoable(b: Books, p: nat, answered: Answers) {
    && HasClosing(b, p)
    && b.periods[p].closing.value < |b.entries|
    && b.entries[b.periods[p].closing.value].status in {Posted, Reversed}
    && var next := NextPeriod(b, p, answered);
       next.Some? ==> !IsLocked(b.periods[next.value]) && b.periods[next.value].closing == None
  }

  /** The closing entry of a period is one of its own year-end entries. */
  predicate OwnClosing(b: Books, p: nat) {
    HasClosing(b, p) ==>
      var closing := b.periods[p].closing.value;
      closing < |b.entries| && b.entries[closing].period == p && b.entries[closing].source == YearEnd
  }

  predicate Ready(b: Books, p: nat) {
    Undoable(b, p, ALL_ANSWERED) && OwnClosing(b, p)
  }

  // ------------------------------------------------------------ the shape of a stage

  /** The entries that the first k steps reverse, in order. */
  function ReversedBy(plan: Plan, k: nat): seq<nat> {
    if k == 0 then []
    else
      match Target(plan, k)
      case Some(id) => ReversedBy(plan, k - 1) + [id]
      case None => ReversedBy(plan, k - 1)
  }

  /** What a step does to one period. */
  function PeriodStep(plan: Plan, q: nat, r: Period, j: nat): Period {
    if j == 2 && plan.opening.Some? && r.opening == plan.opening then r.(opening := None, openingSet := false)
    else if j == 3 && plan.next == Some(q) then r.(continuity := None)
    else if j == 4 && plan.reopen && q == plan.period then r.(closed := false, closedAt := None, lockedAt := None)
    else if j == 6 && q == plan.period then r.(closing := None)
    else r
  }

  function PeriodAt(plan: Plan, b: Books, q: nat, k: nat): Period
    requires q in b.periods
  {
    if k == 0 then b.periods[q] else PeriodStep(plan, q, PeriodAt(plan, b, q, k - 1), k)
  }

  /** Nothing about an entry is edited but its status and the number of its storno. */
  predicate SameVoucher(e: Entry, f: Entry) {
    e.(status := f.status, reversedBy := f.reversedBy) == f
  }

  /**
   The entries of b, those in done reversed and all others as they were, followed by the mirrored stornos of the
   reversed ones in the same order.
   */
  ghost predicate Extends(b: Books, t: Books, done: seq<nat>) {
    && |t.entries| == |b.entries| + |done|
    && (forall i | 0 <= i < |b.entries| ::
          if i in done then SameVoucher(b.entries[i], t.entries[i]) && t.entries[i].status == Reversed
          else t.entries[i] == b.entries[i])
    && (forall i | 0 <= i < |done| ::
          && done[i] < |b.entries|
          && t.entries[done[i]].reversedBy == Some(|b.entries| + i)
          && t.entries[|b.entries| + i] == StornoOf(b.entries[done[i]], done[i]))
    && (forall i, j | 0 <= i < j < |done| :: done[i] != done[j])
  }

  ghost predicate HasShape(plan: Plan, b: Books, k: nat, t: Books) {
    && Extends(b, t, ReversedBy(plan, k))
    && t.periods.Keys == b.periods.Keys
    && forall q | q in b.periods :: t.periods[q] == PeriodAt(plan, b, q, k)
  }

  /** The plan names posted entries of the kinds it looks for. */
  ghost predicate Fits(plan: Plan, b: Books) {
    && plan.period in b.periods
    && (plan.next.Some? ==> plan.next.value in b.periods && plan.next != Some(plan.period))
    && plan.closing < |b.entries| && b.entries[plan.closing].source == YearEnd
    && b.entries[plan.closing].period == plan.period
    && plan.reverseClosing == IsPosted(b, plan.closing)
    && (plan.appropriation.Some? ==> plan.next.Some? && IsAppropriation(b, plan.next.value, plan.appropriation.value))
    && (plan.opening.Some? ==> plan.next.Some? && IsPostedOpening(b, plan.next.value, plan.opening.value))
  }

  lemma PlanFits(b: Books, p: nat, answered: Answers)
    requires Undoable(b, p, answered) && OwnClosing(b, p)
    ensures Fits(PlanRead(b, p, answered), b)
  {
  }

  lemma PlanFacts(b: Books, p: nat)
    requires Ready(b, p)
    ensures Fits(PlanOf(b, p), b)
  {
    PlanFits(b, p, ALL_ANSWERED);
  }

  lemma ReverseExtends(b: Books, t: Books, done: seq<nat>, id: nat)
    requires Extends(b, t, done) && id < |b.entries| && id !in done
    ensures Extends(b, Reverse(t, id), done + [id])
  {
    var u := Reverse(t, id);
    assert StornoOf(t.entries[id], id) == StornoOf(b.entries[id], id);
    forall i | 0 <= i < |done| + 1
      ensures u.entries[|b.entries| + i] == StornoOf(b.entries[(done + [id])[i]], (done + [id])[i])
    {
      if i < |done| {
        assert u.entries[|b.entries| + i] == t.entries[|b.entries| + i];
      }
    }
  }

  lemma {:induction false} FollowShape(plan: Plan, b: Books, k: nat)
    requires Fits(plan, b) && k <= ALL_STEPS
    ensures HasShape(plan, b, k, Follow(plan, b, k))
  {
    if k > 0 {
      FollowShape(plan, b, k - 1);
      var t := Follow(plan, b, k - 1);
      StepEntries(plan, b, t, k);
      StepPeriods(plan, b, t, k);
    }
  }

  /** Each stage reverses the entries of its steps, each with a mirrored storno, and edits and removes nothing else. */
  lemma StageShape(b: Books, p: nat, k: nat)
    requires Ready(b, p) && k <= ALL_STEPS
    ensures HasShape(PlanOf(b, p), b, k, Stage(b, p, k))
  {
    PlanFacts(b, p);
    FollowShape(PlanOf(b, p), b, k);
  }

  lemma {:induction false} ReversedSoFar(plan: Plan, k: nat)
    requires k <= ALL_STEPS
    ensures plan.appropriation.Some? ==> (plan.appropriation.value in ReversedBy(plan, k) <== k >= 1)
    ensures plan.opening.Some? ==> (plan.opening.value in ReversedBy(plan, k) <== k >= 2)
    ensures plan.reverseClosing ==> (plan.closing in ReversedBy(plan, k) <== k >= 5)
    ensures forall id | id in ReversedBy(plan, k) ::
              || (k >= 1 && Some(id) == plan.appropriation)
              || (k >= 2 && Some(id) == plan.opening)
              || (k >= 5 && plan.reverseClosing && id == plan.closing)
  {
    if k > 0 {
      ReversedSoFar(plan, k - 1);
    }
  }

  /** No entry is reversed by two steps. */
  lemma TargetIsNew(plan: Plan, b: Books, k: nat)
    requires Fits(plan, b) && 1 <= k <= ALL_STEPS
    ensures Target(plan, k).Some? ==>
              Target(plan, k).value < |b.entries| && Target(plan, k).value !in ReversedBy(plan, k - 1)
  {
    ReversedSoFar(plan, k - 1);
  }

  lemma StepEntries(plan: Plan, b: Books, t: Books, k: nat)
    requires Fits(plan, b) && 1 <= k <= ALL_STEPS && Extends(b, t, ReversedBy(plan, k - 1))
    ensures Extends(b, Step(plan, t, k), ReversedBy(plan, k))
  {
    hide Extends, Reverse, Fits, Target;
    TargetIsNew(plan, b, k);
    match Target(plan, k)
    case Some(id) => ReverseExtends(b, t, ReversedBy(plan, k - 1), id);
    case None =>
      assert ReversedBy(plan, k) == ReversedBy(plan, k - 1);
      SameEntriesExtend(b, t, Step(plan, t, k), ReversedBy(plan, k - 1));
  }

  lemma StepPeriods(plan: Plan, b: Books, t: Books, k: nat)
    requires Fits(plan, b) && 1 <= k <= ALL_STEPS && Extends(b, t, ReversedBy(plan, k - 1))
    requires t.periods.Keys == b.periods.Keys && forall q | q in b.periods ::
              t.periods[q] == PeriodAt(plan, b, q, k - 1)
    ensures Step(plan, t, k).periods.Keys == b.periods.Keys
    ensures forall q | q in b.periods :: Step(plan, t, k).periods[q] == PeriodAt(plan, b, q, k)
  {
    hide Extends, ReversedBy, Step, PeriodStep, Fits, Target;
    if k == 1 || k == 2 || k == 5 {
      ReversalOnPeriods(plan, b, t, k);
    } else {
      OtherStepOnPeriods(plan, t, k);
    }
  }

  /** Reversing an entry touches a period only as the link to an opening balance. */
  lemma ReversalOnPeriods(plan: Plan, b: Books, t: Books, k: nat)
    requires Fits(plan, b) && (k == 1 || k == 2 || k == 5) && Extends(b, t, ReversedBy(plan, k - 1))
    ensures Step(plan, t, k).periods.Keys == t.periods.Keys
    ensures forall q | q in t.periods :: Step(plan, t, k).periods[q] == PeriodStep(plan, q, t.periods[q], k)
  {
    hide Extends, ReversedBy;
    if Target(plan, k).Some? {
      StatusKept(b, t, ReversedBy(plan, k - 1), Target(plan, k).value);
    }
  }

  lemma OtherStepOnPeriods(plan: Plan, t: Books, k: nat)
    requires k == 3 || k == 4 || k == 6
    ensures Step(plan, t, k).periods.Keys == t.periods.Keys
    ensures forall q | q in t.periods :: Step(plan, t, k).periods[q] == PeriodStep(plan, q, t.periods[q], k)
  {
  }

  lemma SameEntriesExtend(b: Books, t: Books, u: Books, done: seq<nat>)
    requires Extends(b, t, done) && u.entries == t.entries
    ensures Extends(b, u, done)
  {
  }

  lemma StatusKept(b: Books, t: Books, done: seq<nat>, id: nat)
    requires Extends(b, t, done) && id < |b.entries|
    ensures id < |t.entries| && t.entries[id].source == b.entries[id].source
              && t.entries[id].period == b.entries[id].period
    ensures t.entries[id].status == if id in done then Reversed else b.entries[id].status
  {
  }
}
