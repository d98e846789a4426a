/** What holds of the undo's steps: resuming, being let through, verifying, and what is left in the ledger. */
module UndoLaws {
  import opened Wrappers
  import opened UndoLedger

  // ------------------------------------------------------------ what an attempt reads, said of the books alone

  /** The only period whose link names p as its previous one. */
  ghost predicate IsOnlyChained(b: Books, p: nat, q: nat) {
    q in b.periods && forall r | r in b.periods :: b.periods[r].previous == Some(p) <==> r == q
  }

  /** The only period that starts on the day after p ends. */
  ghost predicate IsOnlyDayAfter(b: Books, p: nat, q: nat)
    requires p in b.periods
  {
    q in b.periods && forall r | r in b.periods :: b.periods[r].starts == b.periods[p].ends + 1 <==> r == q
  }

  /** The next period: by its link if just one period has it, and otherwise by date. */
  ghost predicate IsNext(b: Books, p: nat, q: nat, answered: Answers)
    requires p in b.periods
  {
    || (answered.chain && IsOnlyChained(b, p, q))
    || (answered.date && IsOnlyDayAfter(b, p, q) && !(answered.chain && exists r :: IsOnlyChained(b, p, r)))
  }

  /** The last posted appropriation of a period. */
  ghost predicate IsTheAppropriation(b: Books, n: nat, id: nat) {
    && id < |b.entries|
    && b.entries[id].period == n && b.entries[id].status == Posted && b.entries[id].source == ResultAppropriation
    && forall i | id < i < |b.entries| ::
         !(b.entries[i].period == n && b.entries[i].status == Posted && b.entries[i].source == ResultAppropriation)
  }

  /** The posted opening balance that the period's link names, or the last one if there is no link. */
  ghost predicate IsTheOpening(b: Books, n: nat, id: nat)
    requires n in b.periods
  {
    && id < |b.entries|
    && b.entries[id].period == n && b.entries[id].status == Posted && b.entries[id].source == OpeningBalance
    && match b.periods[n].opening
       case Some(link) => link == id
       case None => forall i | id < i < |b.entries| ::
         !(b.entries[i].period == n && b.entries[i].status == Posted && b.entries[i].source == OpeningBalance)
  }

  lemma TheOnlyOne(found: set<nat>, q: nat)
    ensures Only(found) == Some(q) <==> found == {q}
  {
  }

  /** The period an attempt takes for the next one: chain before date, and only an unambiguous answer counts. */
  lemma NextPeriodIsNext(b: Books, p: nat, q: nat, answered: Answers)
    requires p in b.periods
    ensures NextPeriod(b, p, answered) == Some(q) <==> IsNext(b, p, q, answered)
  {
    hide Only;
    forall r: nat
      ensures Only(ChainedTo(b, p)) == Some(r) <==> IsOnlyChained(b, p, r)
      ensures Only(StartingOn(b, b.periods[p].ends + 1)) == Some(r) <==> IsOnlyDayAfter(b, p, r)
    {
      TheOnlyOne(ChainedTo(b, p), r);
      TheOnlyOne(StartingOn(b, b.periods[p].ends + 1), r);
      OnlyOneMeans(b, p, r);
    }
    if Only(ChainedTo(b, p)).Some? {
      assert IsOnlyChained(b, p, Only(ChainedTo(b, p)).value);
    }
  }

  lemma OnlyOneMeans(b: Books, p: nat, r: nat)
    requires p in b.periods
    ensures ChainedTo(b, p) == {r} <==> IsOnlyChained(b, p, r)
    ensures StartingOn(b, b.periods[p].ends + 1) == {r} <==> IsOnlyDayAfter(b, p, r)
  {
    if ChainedTo(b, p) == {r} {
      assert r in ChainedTo(b, p);
      assert forall q | q in b.periods && b.periods[q].previous == Some(p) :: q in ChainedTo(b, p);
    }
    if StartingOn(b, b.periods[p].ends + 1) == {r} {
      assert r in StartingOn(b, b.periods[p].ends + 1);
      assert forall q | q in b.periods && b.periods[q].starts == b.periods[p].ends + 1 ::
          q in StartingOn(b, b.periods[p].ends + 1);
    }
  }

  /** What an attempt plans, for every combination of answers. */
  lemma PlanReadMeans(b: Books, p: nat, answered: Answers)
    requires HasClosing(b, p)
    ensures var plan := PlanRead(b, p, answered);
            && plan.period == p && b.periods[p].closing == Some(plan.closing)
            && (plan.reopen <==> b.periods[p].closed || b.periods[p].lockedAt.Some?)
            && (plan.reverseClosing <==> plan.closing < |b.entries| && b.entries[plan.closing].status == Posted)
            && (forall q: nat :: plan.next == Some(q) <==> IsNext(b, p, q, answered))
            && (forall id: nat :: plan.appropriation == Some(id) <==>
                             answered.entries && plan.next.Some? && IsTheAppropriation(b, plan.next.value, id))
            && (forall id: nat :: plan.opening == Some(id) <==>
                             answered.entries && plan.next.Some? && IsTheOpening(b, plan.next.value, id))
  {
    hide NextPeriod, IsNext, LastAppropriation, LastOpening, IsTheAppropriation, IsTheOpening;
    forall q: nat
      ensures NextPeriod(b, p, answered) == Some(q) <==> IsNext(b, p, q, answered)
    {
      NextPeriodIsNext(b, p, q, answered);
    }
    var next := PlanRead(b, p, answered).next;
    if next.Some? {
      forall id: nat
        ensures LastAppropriation(b, next.value, |b.entries|) == Some(id) <==> IsTheAppropriation(b, next.value, id)
        ensures LastOpening(b, next.value, |b.entries|) == Some(id) <==> IsTheOpening(b, next.value, id)
      {
        LastOfEach(b, next.value, id);
      }
    }
  }

  lemma LastOfEach(b: Books, n: nat, id: nat)
    requires n in b.periods
    ensures LastAppropriation(b, n, |b.entries|) == Some(id) <==> IsTheAppropriation(b, n, id)
    ensures LastOpening(b, n, |b.entries|) == Some(id) <==> IsTheOpening(b, n, id)
  {
    if LastAppropriation(b, n, |b.entries|) == Some(id) {
      forall i | id < i < |b.entries|
        ensures !(b.entries[i].period == n && b.entries[i].status == Posted
                  && b.entries[i].source == ResultAppropriation)
      {
        assert !IsAppropriation(b, n, i);
      }
    }
    if LastOpening(b, n, |b.entries|) == Some(id) && b.periods[n].opening == None {
      forall i | id < i < |b.entries|
        ensures !(b.entries[i].period == n && b.entries[i].status == Posted && b.entries[i].source == OpeningBalance)
      {
        assert !IsOpening(b, n, i);
      }
    }
    if IsTheAppropriation(b, n, id) {
      assert IsAppropriation(b, n, id);
    }
    if IsTheOpening(b, n, id) {
      assert IsOpening(b, n, id);
    }
  }

  /**
   The undo of p is due to reverse the entry: it is the posted closing entry, or the appropriation or the opening
   balance of the next period.
   */
  ghost predicate IsDue(b: Books, p: nat, id: nat)
    requires p in b.periods
  {
    || (b.periods[p].closing == Some(id) && id < |b.entries| && b.entries[id].status == Posted)
    || exists n | n in b.periods ::
         IsNext(b, p, n, Answers(true, true, true)) && (IsTheAppropriation(b, n, id) || IsTheOpening(b, n, id))
  }

  /** An uninterrupted attempt whose lookups are all answered reverses what is due, and nothing else. */
  lemma ReversesWhatIsDue(b: Books, p: nat, id: nat)
    requires HasClosing(b, p)
    ensures id in ReversedBy(PlanOf(b, p), ALL_STEPS) <==> IsDue(b, p, id)
  {
    hide PlanRead, IsNext, IsTheAppropriation, IsTheOpening;
    PlanReadMeans(b, p, ALL_ANSWERED);
    var plan := PlanOf(b, p);
    ReversedSoFar(plan, ALL_STEPS);
    NextIsAPeriod(b, p);
    if plan.next.Some? {
      assert IsNext(b, p, plan.next.value, ALL_ANSWERED);
    }
  }

  lemma NextIsAPeriod(b: Books, p: nat)
    requires HasClosing(b, p)
    ensures PlanOf(b, p).next.Some? ==> PlanOf(b, p).next.value in b.periods
  {
  }

  // ------------------------------------------------------------ resuming a partial undo

  lemma {:induction false} PeriodFacts(plan: Plan, b: Books, q: nat, k: nat)
    requires Fits(plan, b) && q in b.periods && k <= ALL_STEPS
    ensures var r, was := PeriodAt(plan, b, q, k), b.periods[q];
            && r.previous == was.previous && r.starts == was.starts && r.ends == was.ends
            && r.closing == (if k == 6 && q == plan.period then None else was.closing)
            && (if k >= 4 && plan.reopen && q == plan.period
                then !r.closed && r.closedAt == None && r.lockedAt == None
                else r.closed == was.closed && r.closedAt == was.closedAt && r.lockedAt == was.lockedAt)
            && (if k >= 2 && plan.opening.Some? && was.opening == plan.opening
                then r.opening == None && !r.openingSet
                else r.opening == was.opening && r.openingSet == was.openingSet)
            && r.continuity == (if k >= 3 && plan.next == Some(q) then None else was.continuity)
  {
    if k > 0 {
      PeriodFacts(plan, b, q, k - 1);
    }
  }

  /** A posted appropriation (k = 1) or opening balance (k = 2) beside the one the scan found. */
  ghost predicate IsSecondCandidate(b: Books, plan: Plan, k: nat, i: nat)
    requires plan.next.Some?
  {
    if k == 1 then plan.appropriation.Some? && IsAppropriation(b, plan.next.value, i) && Some(i) != plan.appropriation
    else plan.opening.Some? && IsPostedOpening(b, plan.next.value, i) && Some(i) != plan.opening
  }

  ghost predicate OneOfEach(b: Books, plan: Plan) {
    plan.next.Some? ==>
      forall k, i | 1 <= k <= 2 && 0 <= i < |b.entries| :: !IsSecondCandidate(b, plan, k, i)
  }

  lemma SameNextPeriod(b: Books, t: Books, p: nat)
    requires p in b.periods && t.periods.Keys == b.periods.Keys
    requires forall q | q in b.periods ::
               t.periods[q].previous == b.periods[q].previous
               && t.periods[q].starts == b.periods[q].starts && t.periods[q].ends == b.periods[q].ends
    ensures NextPeriod(t, p, ALL_ANSWERED) == NextPeriod(b, p, ALL_ANSWERED)
  {
    assert ChainedTo(t, p) == ChainedTo(b, p);
    assert StartingOn(t, t.periods[p].ends + 1) == StartingOn(b, b.periods[p].ends + 1);
  }

  /** An attempt that starts where another stopped is let in, and reads the same plan less what is done. */
  lemma ResumedPlan(b: Books, p: nat, k: nat)
    requires Ready(b, p) && k < ALL_STEPS
    ensures Ready(Stage(b, p, k), p)
    ensures var plan, again := PlanOf(b, p), PlanOf(Stage(b, p, k), p);
            && again.period == p && again.next == plan.next && again.closing == plan.closing
            && again.reopen == (k < 4 && plan.reopen)
            && again.reverseClosing == (k < 5 && plan.reverseClosing)
            && (k == 0 || plan.appropriation.None? ==> again.appropriation == plan.appropriation)
            && (k < 2 || plan.opening.None? ==> again.opening == plan.opening)
  {
    var plan, t := PlanOf(b, p), Stage(b, p, k);
    PlanFacts(b, p);
    StageShape(b, p, k);
    ReversedSoFar(plan, k);
    forall q | q in b.periods
      ensures PeriodAt(plan, b, q, k) == t.periods[q]
    {
      PeriodFacts(plan, b, q, k);
    }
    PeriodFacts(plan, b, p, k);
    if plan.next.Some? {
      PeriodFacts(plan, b, plan.next.value, k);
    }
    ResumedNext(b, p, k);
    if plan.next.Some? {
      ResumedScan(b, p, k);
    }
  }

  lemma ResumedNext(b: Books, p: nat, k: nat)
    requires Ready(b, p) && k <= ALL_STEPS
    ensures p in Stage(b, p, k).periods && NextPeriod(Stage(b, p, k), p, ALL_ANSWERED) == NextPeriod(b, p, ALL_ANSWERED)
  {
    hide NextPeriod, Stage, Extends;
    var plan, t := PlanOf(b, p), Stage(b, p, k);
    PlanFacts(b, p);
    StageShape(b, p, k);
    forall q | q in b.periods
      ensures t.periods[q].previous == b.periods[q].previous
      ensures t.periods[q].starts == b.periods[q].starts && t.periods[q].ends == b.periods[q].ends
    {
      PeriodFacts(plan, b, q, k);
    }
    SameNextPeriod(b, t, p);
  }

  lemma ResumedScan(b: Books, p: nat, k: nat)
    requires Ready(b, p) && k < ALL_STEPS && NextPeriod(b, p, ALL_ANSWERED).Some?
    ensures var plan, t, n := PlanOf(b, p), Stage(b, p, k), NextPeriod(b, p, ALL_ANSWERED).value;
            && n in t.periods
            && (k == 0 || plan.appropriation.None? ==> LastAppropriation(t, n, |t.entries|) == plan.appropriation)
            && (k < 2 || plan.opening.None? ==> LastOpening(t, n, |t.entries|) == plan.opening)
            && (k >= 1 && OneOfEach(b, plan) ==> LastAppropriation(t, n, |t.entries|) == None)
            && (k >= 2 && OneOfEach(b, plan) ==> LastOpening(t, n, |t.entries|) == None)
  {
    hide Stage, NextPeriod, Extends, ReversedBy;
    var plan, t, n := PlanOf(b, p), Stage(b, p, k), NextPeriod(b, p, ALL_ANSWERED).value;
    PlanFacts(b, p);
    StageShape(b, p, k);
    ReversedSoFar(plan, k);
    PeriodFacts(plan, b, n, k);
    ExtendsLength(b, t, ReversedBy(plan, k));
    LeftAtStage(b, t, ReversedBy(plan, k), n);
    var ra, ib := LastAppropriation(t, n, |t.entries|), LastOpening(t, n, |t.entries|);
    if ra.Some? && plan.appropriation.Some? && k >= 1 {
      assert IsSecondCandidate(b, plan, 1, ra.value);
    }
    if ib.Some? && plan.opening.Some? && k >= 2 {
      assert IsSecondCandidate(b, plan, 2, ib.value);
    }
    if k < 2 || plan.opening.None? {
      forall i | 0 <= i < |t.entries|
        ensures IsOpening(t, n, i) <==> i < |b.entries| && IsOpening(b, n, i)
      {
        assert IsPostedOpening(t, n, i) <==> i < |b.entries| && IsPostedOpening(b, n, i) && i !in ReversedBy(plan, k);
      }
    }
  }

  /** What a stage leaves of the posted appropriations and opening balances of a period. */
  lemma LeftAtStage(b: Books, t: Books, done: seq<nat>, n: nat)
    requires Extends(b, t, done)
    ensures forall i | 0 <= i < |t.entries| ::
              && (IsAppropriation(t, n, i) <==> i < |b.entries| && IsAppropriation(b, n, i) && i !in done)
              && (IsPostedOpening(t, n, i) <==> i < |b.entries| && IsPostedOpening(b, n, i) && i !in done)
  {
    hide Extends;
    ExtendsLength(b, t, done);
    forall i | 0 <= i < |t.entries|
      ensures IsAppropriation(t, n, i) <==> i < |b.entries| && IsAppropriation(b, n, i) && i !in done
      ensures IsPostedOpening(t, n, i) <==> i < |b.entries| && IsPostedOpening(b, n, i) && i !in done
    {
      EntryAtStage(b, t, done, i);
    }
  }

  lemma EntryAtStage(b: Books, t: Books, done: seq<nat>, i: nat)
    requires Extends(b, t, done) && i < |b.entries| + |done|
    ensures |b.entries| <= |t.entries| && i < |t.entries|
    ensures i < |b.entries| ==> SameVoucher(b.entries[i], t.entries[i])
    ensures i < |b.entries| ==> t.entries[i].status == if i in done then Reversed else b.entries[i].status
    ensures i >= |b.entries| ==> t.entries[i].source == Storno && t.entries[i].status == Posted
  {
    if i >= |b.entries| {
      var m := i - |b.entries|;
      assert t.entries[|b.entries| + m] == StornoOf(b.entries[done[m]], done[m]);
    }
  }

  /** An attempt that resumes after k steps goes through the very books of the first attempt. */
  lemma {:induction false} ResumesWhenOneOfEach(b: Books, p: nat, k: nat, j: nat)
    requires Ready(b, p) && k < ALL_STEPS && j <= ALL_STEPS && OneOfEach(b, PlanOf(b, p))
    ensures HasClosing(Stage(b, p, k), p)
    ensures Stage(Stage(b, p, k), p, j) == Stage(b, p, if j < k then k else j)
  {
    ResumedPlan(b, p, k);
    if j > 0 {
      ResumesWhenOneOfEach(b, p, k, j - 1);
      if j <= k {
        DoneStepsDoNothing(b, p, k, j);
      } else {
        StepsToComeAreTheSame(b, p, k, j, Stage(b, p, j - 1));
      }
    }
  }

  lemma DoneStepsDoNothing(b: Books, p: nat, k: nat, j: nat)
    requires Ready(b, p) && 1 <= j <= k < ALL_STEPS && OneOfEach(b, PlanOf(b, p))
    requires HasClosing(Stage(b, p, k), p)
    ensures Step(PlanOf(Stage(b, p, k), p), Stage(b, p, k), j) == Stage(b, p, k)
  {
    hide Stage, NextPeriod;
    var plan, t := PlanOf(b, p), Stage(b, p, k);
    ResumedPlan(b, p, k);
    var again := PlanOf(t, p);
    if plan.next.Some? {
      ResumedScan(b, p, k);
      PlanFacts(b, p);
      StageShape(b, p, k);
      PeriodFacts(plan, b, plan.next.value, k);
    }
    assert Target(again, j) == None;
    if j == 3 && again.next.Some? {
      var n := again.next.value;
      assert t.periods[n].(continuity := None) == t.periods[n];
      assert t.periods[n := t.periods[n]] == t.periods;
    }
  }

  lemma StepsToComeAreTheSame(b: Books, p: nat, k: nat, j: nat, t: Books)
    requires Ready(b, p) && k < j <= ALL_STEPS && k < ALL_STEPS
    requires HasClosing(Stage(b, p, k), p)
    ensures Step(PlanOf(Stage(b, p, k), p), t, j) == Step(PlanOf(b, p), t, j)
  {
    hide Stage, NextPeriod, Reverse, LastAppropriation, LastOpening;
    ResumedPlan(b, p, k);
  }

  /** A second candidate is reversed as well by an attempt that resumes, though not by one that is never stopped. */
  lemma ASecondCandidateIsReversedToo(b: Books, p: nat) returns (k: nat)
    requires Ready(b, p) && !OneOfEach(b, PlanOf(b, p))
    ensures 1 <= k <= 2 && HasClosing(Stage(b, p, k), p) && Stage(Stage(b, p, k), p, k) != Stage(b, p, k)
  {
    var plan := PlanOf(b, p);
    PlanFacts(b, p);
    var i: nat;
    k, i :| 1 <= k <= 2 && 0 <= i < |b.entries| && IsSecondCandidate(b, plan, k, i);
    SecondCandidateAt(b, p, k);
  }

  lemma SecondCandidateAt(b: Books, p: nat, k: nat)
    requires Ready(b, p) && 1 <= k <= 2
    requires PlanOf(b, p).next.Some?
    requires exists i | 0 <= i < |b.entries| :: IsSecondCandidate(b, PlanOf(b, p), k, i)
    ensures HasClosing(Stage(b, p, k), p) && Stage(Stage(b, p, k), p, k) != Stage(b, p, k)
  {
    hide NextPeriod, Stage;
    var plan, t := PlanOf(b, p), Stage(b, p, k);
    var n := plan.next.value;
    PlanFacts(b, p);
    ResumedPlan(b, p, k);
    StageShape(b, p, k);
    ReversedSoFar(plan, k);
    PeriodFacts(plan, b, n, k);
    var i :| 0 <= i < |b.entries| && IsSecondCandidate(b, plan, k, i);
    assert i !in ReversedBy(plan, k);
    assert if k == 1 then IsAppropriation(t, n, i) else IsOpening(t, n, i);
    assert Target(PlanOf(t, p), k).Some?;
    ReversesSomething(t, p, k);
  }

  lemma ReversesSomething(t: Books, p: nat, k: nat)
    requires Ready(t, p) && 1 <= k <= ALL_STEPS && Target(PlanOf(t, p), k).Some?
    ensures Stage(t, p, k) != t
  {
    var plan := PlanOf(t, p);
    PlanFacts(t, p);
    StageShape(t, p, k);
    var id := Target(plan, k).value;
    assert id in ReversedBy(plan, k);
    assert Stage(t, p, k).entries[id].status == Reversed != t.entries[id].status;
  }

  /** The first j steps of an attempt that resumes after k steps lead where the first attempt's own steps lead. */
  ghost predicate Retraces(b: Books, p: nat, k: nat, j: nat)
    requires HasClosing(b, p)
  {
    HasClosing(Stage(b, p, k), p) && Stage(Stage(b, p, k), p, j) == Stage(b, p, if j < k then k else j)
  }

  /**
   However far an attempt came before it died, resuming it retraces the same books, exactly when the next period
   has one posted appropriation and one posted opening balance at most beside which none is left.
   */
  lemma ResumesExactlyWhen(b: Books, p: nat)
    requires Ready(b, p)
    ensures (forall k, j | 0 <= k < ALL_STEPS && 0 <= j <= ALL_STEPS :: Retraces(b, p, k, j)) <==>
            OneOfEach(b, PlanOf(b, p))
  {
    if OneOfEach(b, PlanOf(b, p)) {
      forall k, j | 0 <= k < ALL_STEPS && 0 <= j <= ALL_STEPS
        ensures Retraces(b, p, k, j)
      {
        ResumesWhenOneOfEach(b, p, k, j);
      }
    } else {
      var k := ASecondCandidateIsReversedToo(b, p);
      assert !Retraces(b, p, k, k);
    }
  }

  /** After the detach the period has no closing entry, so every later attempt is refused. */
  lemma RefusedOnceDetached(b: Books, p: nat)
    requires Ready(b, p)
    ensures forall answered :: !Undoable(Stage(b, p, ALL_STEPS), p, answered)
  {
    PlanFacts(b, p);
    StageShape(b, p, ALL_STEPS);
    PeriodFacts(PlanOf(b, p), b, p, ALL_STEPS);
  }

  // ------------------------------------------------------------ every step is let through

  /** Step j of an uninterrupted attempt meets the database's conditions. */
  ghost predicate IsLetThrough(b: Books, p: nat, j: nat)
    requires HasClosing(b, p) && j >= 1
  {
    MayStep(PlanOf(b, p), Stage(b, p, j - 1), j)
  }

  /**
   The database lets every step of an attempt through, exactly when the closing entry is posted or is reversed by
   a posted storno.
   */
  lemma LetThroughExactlyWhen(b: Books, p: nat)
    requires Ready(b, p)
    ensures var plan := PlanOf(b, p);
            (forall j | 1 <= j <= ALL_STEPS :: IsLetThrough(b, p, j)) <==>
            IsPosted(b, plan.closing) || HasStorno(b, plan.closing)
  {
    var plan := PlanOf(b, p);
    forall j | 1 <= j < ALL_STEPS
      ensures IsLetThrough(b, p, j)
    {
      ReversalIsLetThrough(b, p, j);
    }
    DetachIsLetThrough(b, p);
  }

  lemma ReversalIsLetThrough(b: Books, p: nat, j: nat)
    requires Ready(b, p) && 1 <= j < ALL_STEPS
    ensures IsLetThrough(b, p, j)
  {
    hide Stage, NextPeriod;
    var plan, t := PlanOf(b, p), Stage(b, p, j - 1);
    PlanFacts(b, p);
    StageShape(b, p, j - 1);
    TargetIsNew(plan, b, j);
    if Target(plan, j).Some? {
      var id := Target(plan, j).value;
      StatusKept(b, t, ReversedBy(plan, j - 1), id);
      PeriodFacts(plan, b, b.entries[id].period, j - 1);
    }
  }

  lemma DetachIsLetThrough(b: Books, p: nat)
    requires Ready(b, p)
    ensures var plan := PlanOf(b, p);
            IsLetThrough(b, p, ALL_STEPS) <==> IsPosted(b, plan.closing) || HasStorno(b, plan.closing)
  {
    hide Stage, NextPeriod;
    var plan, t := PlanOf(b, p), Stage(b, p, 5);
    PlanFacts(b, p);
    StageShape(b, p, 5);
    ReversedSoFar(plan, 5);
    if plan.reverseClosing {
      AStornoWasPosted(b, t, ReversedBy(plan, 5), plan.closing);
    } else {
      StornosKept(b, t, ReversedBy(plan, 5), plan.closing);
    }
  }

  lemma AStornoWasPosted(b: Books, t: Books, done: seq<nat>, id: nat)
    requires Extends(b, t, done) && id in done
    ensures id < |b.entries| && t.entries[id].status == Reversed && HasStorno(t, id)
  {
    var i :| 0 <= i < |done| && done[i] == id;
    assert IsStornoOf(t, |b.entries| + i, id);
  }

  lemma StornosKept(b: Books, t: Books, done: seq<nat>, id: nat)
    requires Extends(b, t, done) && id !in done
    requires forall i | i in done && i < |b.entries| :: b.entries[i].source != Storno
    ensures HasStorno(t, id) <==> HasStorno(b, id)
  {
    if HasStorno(b, id) {
      var s :| 0 <= s < |b.entries| && IsStornoOf(b, s, id);
      assert IsStornoOf(t, s, id);
    }
    if HasStorno(t, id) {
      var s :| 0 <= s < |t.entries| && IsStornoOf(t, s, id);
      if s < |b.entries| {
        assert IsStornoOf(b, s, id);
      } else {
        assert t.entries[|b.entries| + (s - |b.entries|)].reverses == Some(done[s - |b.entries|]);
      }
    }
  }

  /** The guards of the engine and of the database, said of the entries and periods alone. */
  lemma GuardsExactlyWhen(b: Books, id: nat)
    ensures MayReverse(b, id) <==>
            && id < |b.entries| && b.entries[id].status == Posted && b.entries[id].source != Storno
            && b.entries[id].period in b.periods
            && !b.periods[b.entries[id].period].closed && b.periods[b.entries[id].period].lockedAt == None
    ensures MayDetach(b, id) <==>
            && id < |b.entries| && b.entries[id].status == Reversed
            && exists s | 0 <= s < |b.entries| ::
                 b.entries[s].source == Storno && b.entries[s].status == Posted && b.entries[s].reverses == Some(id)
  {
    if s: nat :| s < |b.entries| && b.entries[s].source == Storno && b.entries[s].status == Posted
                 && b.entries[s].reverses == Some(id) {
      assert IsStornoOf(b, s, id);
    }
  }

  // ------------------------------------------------------------ the final check

  /** The state the undo verifies at its end. */
  predicate Verified(b: Books, plan: Plan) {
    && plan.closing < |b.entries| && b.entries[plan.closing].status == Reversed
    && plan.period in b.periods
    && !b.periods[plan.period].closed && b.periods[plan.period].lockedAt == None
    && b.periods[plan.period].closing == None
    && (plan.next.Some? ==>
          && plan.next.value in b.periods
          && b.periods[plan.next.value].opening == None && !b.periods[plan.next.value].openingSet)
  }

  /** The opening balance link names a posted opening balance entry of the period, or is absent with its flag. */
  predicate LinkIsSound(b: Books, n: nat)
    requires n in b.periods
  {
    match b.periods[n].opening
    case Some(id) => IsPostedOpening(b, n, id)
    case None => !b.periods[n].openingSet
  }

  /** The link and its flag as they must be for the final check, given what the attempt could read. */
  predicate LinkWillPass(b: Books, n: nat, answered: Answers)
    requires n in b.periods
  {
    if answered.entries then LinkIsSound(b, n) else b.periods[n].opening == None && !b.periods[n].openingSet
  }

  /**
   An attempt that is not stopped passes its own check, exactly when it found no next period, or the opening link
   of the one it found was sound, or was already gone if it could not read that period's entries.
   */
  lemma VerifiesExactlyWhen(b: Books, p: nat, answered: Answers)
    requires Undoable(b, p, answered) && OwnClosing(b, p)
    ensures var plan := PlanRead(b, p, answered);
            Verified(Follow(plan, b, ALL_STEPS), plan) <==>
            plan.next.Some? ==> LinkWillPass(b, plan.next.value, answered)
  {
    hide Follow, NextPeriod;
    var plan := PlanRead(b, p, answered);
    var t := Follow(plan, b, ALL_STEPS);
    PlanFits(b, p, answered);
    FollowShape(plan, b, ALL_STEPS);
    ReversedSoFar(plan, ALL_STEPS);
    EntryAtStage(b, t, ReversedBy(plan, ALL_STEPS), plan.closing);
    PeriodFacts(plan, b, p, ALL_STEPS);
    if plan.next.Some? {
      var n := plan.next.value;
      PeriodFacts(plan, b, n, ALL_STEPS);
      if b.periods[n].opening.Some? && LinkIsSound(b, n) {
        assert IsOpening(b, n, b.periods[n].opening.value);
      }
    }
  }

  /** The period holds no posted appropriation, and no posted opening balance that its link lets the scan match. */
  ghost predicate HasNothingToReverse(b: Books, next: Option<nat>) {
    next.Some? ==>
      && next.value in b.periods
      && forall i | 0 <= i < |b.entries| :: !IsAppropriation(b, next.value, i) && !IsOpening(b, next.value, i)
  }

  /**
   An attempt plans to reverse the entries that it would with every lookup answered, exactly when it reads the
   entries of the same next period, or neither that period nor the one it does read has any to reverse.
   */
  lemma ReversesTheSameExactlyWhen(b: Books, p: nat, answered: Answers)
    requires Undoable(b, p, answered) && Ready(b, p)
    ensures var read, next := NextPeriod(b, p, answered), NextPeriod(b, p, ALL_ANSWERED);
            ReversedBy(PlanRead(b, p, answered), ALL_STEPS) == ReversedBy(PlanOf(b, p), ALL_STEPS) <==>
            || (answered.entries && read == next)
            || (HasNothingToReverse(b, if answered.entries then read else None) && HasNothingToReverse(b, next))
  {
    hide NextPeriod;
    var plan, full := PlanRead(b, p, answered), PlanOf(b, p);
    PlanFits(b, p, answered);
    PlanFacts(b, p);
    ScanFindsNothing(b, p, answered);
    ScanFindsNothing(b, p, ALL_ANSWERED);
    SameTargets(plan, full, b);
  }

  lemma ScanFindsNothing(b: Books, p: nat, answered: Answers)
    requires Undoable(b, p, answered) && OwnClosing(b, p)
    ensures var plan := PlanRead(b, p, answered);
            HasNothingToReverse(b, if answered.entries then plan.next else None) <==>
            plan.appropriation == None && plan.opening == None
  {
    hide NextPeriod;
    var plan := PlanRead(b, p, answered);
    if plan.next.Some? && answered.entries {
      var n := plan.next.value;
      if plan.appropriation.Some? {
        assert IsAppropriation(b, n, plan.appropriation.value);
      }
      if plan.opening.Some? {
        assert IsOpening(b, n, plan.opening.value);
      }
    }
  }

  /** Plans of one period reverse the same entries only target by target. */
  lemma SameTargets(plan: Plan, full: Plan, b: Books)
    requires Fits(plan, b) && Fits(full, b) && plan.period == full.period
    requires plan.closing == full.closing
    ensures ReversedBy(plan, ALL_STEPS) == ReversedBy(full, ALL_STEPS) <==>
            plan.appropriation == full.appropriation && plan.opening == full.opening
    ensures plan.appropriation == full.appropriation && plan.appropriation.Some? ==> plan.next == full.next
    ensures plan.opening == full.opening && plan.opening.Some? ==> plan.next == full.next
  {
    if plan.appropriation == full.appropriation && plan.opening == full.opening {
      SameReversals(plan, full, ALL_STEPS);
    } else if ReversedBy(plan, ALL_STEPS) == ReversedBy(full, ALL_STEPS) {
      ReversedSoFar(plan, ALL_STEPS);
      ReversedSoFar(full, ALL_STEPS);
      assert false;
    }
  }

  lemma {:induction false} SameReversals(plan: Plan, full: Plan, k: nat)
    requires plan.appropriation == full.appropriation && plan.opening == full.opening
    requires plan.closing == full.closing && plan.reverseClosing == full.reverseClosing
    ensures ReversedBy(plan, k) == ReversedBy(full, k)
  {
    if k > 0 {
      SameReversals(plan, full, k - 1);
    }
  }

  /**
   When the lookups of the next period are not answered, the undo takes it that there is none: it detaches the
   closing entry, passes its own check, and leaves the new year's entries posted, with every re-run refused.
   */
  lemma UnansweredLookupsPassTheCheck(b: Books, p: nat)
    requires Ready(b, p)
    ensures var blind, plan := PlanRead(b, p, Answers(false, false, true)), PlanOf(b, p);
            var t := Follow(blind, b, ALL_STEPS);
            && Verified(t, blind)
            && (plan.appropriation.Some? ==> IsPosted(t, plan.appropriation.value))
            && (plan.opening.Some? ==> IsPosted(t, plan.opening.value))
            && forall answered :: !Undoable(t, p, answered)
  {
    var blind, plan := PlanRead(b, p, Answers(false, false, true)), PlanOf(b, p);
    var t := Follow(blind, b, ALL_STEPS);
    PlanFacts(b, p);
    PlanFits(b, p, Answers(false, false, true));
    FollowShape(blind, b, ALL_STEPS);
    ReversedSoFar(blind, ALL_STEPS);
    PeriodFacts(blind, b, p, ALL_STEPS);
    EntryAtStage(b, t, ReversedBy(blind, ALL_STEPS), plan.closing);
    if plan.opening.Some? {
      EntryAtStage(b, t, ReversedBy(blind, ALL_STEPS), plan.opening.value);
    }
    if plan.appropriation.Some? {
      EntryAtStage(b, t, ReversedBy(blind, ALL_STEPS), plan.appropriation.value);
    }
  }

  // ------------------------------------------------------------ stornos

  ghost predicate ExactlyOneStorno(b: Books, id: nat) {
    exists s | 0 <= s < |b.entries| ::
      IsStornoOf(b, s, id) && forall r | 0 <= r < |b.entries| :: IsStornoOf(b, r, id) ==> r == s
  }

  /** Whatever was reversed, in however many attempts: each entry ends with one posted storno, if it had none before. */
  lemma OneStornoEach(b: Books, t: Books, done: seq<nat>, id: nat)
    requires Extends(b, t, done) && id in done && !HasStorno(b, id)
    requires forall i | i in done && i < |b.entries| :: b.entries[i].source != Storno
    ensures id < |t.entries| && t.entries[id].status == Reversed && ExactlyOneStorno(t, id)
  {
    var i :| 0 <= i < |done| && done[i] == id;
    var s := |b.entries| + i;
    assert IsStornoOf(t, s, id);
    forall r | 0 <= r < |t.entries| && IsStornoOf(t, r, id)
      ensures r == s
    {
      if r < |b.entries| {
        assert IsStornoOf(b, r, id);
      } else {
        var m := r - |b.entries|;
        assert t.entries[|b.entries| + m] == StornoOf(b.entries[done[m]], done[m]);
      }
    }
  }

  // ------------------------------------------------------------ balances

  /** What an entry adds to an account of a period: posted and reversed entries count, drafts and cancelled do not. */
  function Counted(e: Entry, q: nat, account: string): int {
    if e.period == q && e.status in {Posted, Reversed} && account in e.amounts then e.amounts[account] else 0
  }

  function Balance(entries: seq<Entry>, q: nat, account: string): int {
    if entries == [] then 0
    else Balance(entries[..|entries| - 1], q, account) + Counted(entries[|entries| - 1], q, account)
  }

  /** The same entries with some of them struck out. */
  function Without(entries: seq<Entry>, struck: seq<nat>): seq<Entry> {
    seq(|entries|, i requires 0 <= i < |entries| =>
      if i in struck then entries[i].(status := Cancelled) else entries[i])
  }

  lemma {:induction false} BalanceOfUpdate(entries: seq<Entry>, i: nat, e: Entry, q: nat, account: string)
    requires i < |entries|
    ensures Balance(entries[i := e], q, account) ==
              Balance(entries, q, account) - Counted(entries[i], q, account) + Counted(e, q, account)
  {
    var n := |entries| - 1;
    if i == n {
      assert entries[i := e][..n] == entries[..n];
    } else {
      BalanceOfUpdate(entries[..n], i, e, q, account);
      assert entries[i := e][..n] == entries[..n][i := e];
    }
  }

  /** Reversing a posted entry takes exactly its own amounts out of the balances. */
  lemma BalanceAfterReversal(t: Books, id: nat, q: nat, account: string)
    requires IsPosted(t, id)
    ensures Balance(Reverse(t, id).entries, q, account) ==
              Balance(t.entries, q, account) - Counted(t.entries[id], q, account)
  {
    var e := t.entries[id];
    var updated := t.entries[id := e.(status := Reversed, reversedBy := Some(|t.entries|))];
    BalanceOfUpdate(t.entries, id, e.(status := Reversed, reversedBy := Some(|t.entries|)), q, account);
    assert (updated + [StornoOf(e, id)])[..|updated|] == updated;
  }

  lemma StrikingOneMore(entries: seq<Entry>, struck: seq<nat>, id: nat, q: nat, account: string)
    requires id < |entries| && id !in struck
    ensures Balance(Without(entries, struck + [id]), q, account) ==
              Balance(Without(entries, struck), q, account) - Counted(entries[id], q, account)
  {
    assert Without(entries, struck + [id]) == Without(entries, struck)[id := entries[id].(status := Cancelled)];
    BalanceOfUpdate(Without(entries, struck), id, entries[id].(status := Cancelled), q, account);
  }

  lemma {:induction false} SameBalance(a: seq<Entry>, b: seq<Entry>, q: nat, account: string)
    requires |a| == |b| && forall i | 0 <= i < |a| :: Counted(a[i], q, account) == Counted(b[i], q, account)
    ensures Balance(a, q, account) == Balance(b, q, account)
  {
    if a != [] {
      SameBalance(a[..|a| - 1], b[..|b| - 1], q, account);
    }
  }

  /** Whatever was reversed, in however many attempts: every balance is as if those entries had never been booked. */
  lemma BalancesWithoutTheReversed(b: Books, t: Books, done: seq<nat>, q: nat, account: string)
    requires Extends(b, t, done) && forall id | id in done :: IsPosted(b, id)
    ensures Balance(t.entries, q, account) == Balance(Without(b.entries, done), q, account)
  {
    hide Balance, Extends;
    SameCounted(b, t, done, q, account);
    SameBalance(t.entries[..|b.entries|], b.entries, q, account);
    BalanceOfStornos(b, t, done, |done|, q, account);
    ExtendsLength(b, t, done);
    assert t.entries[..|b.entries| + |done|] == t.entries && done[..|done|] == done;
  }

  lemma ExtendsLength(b: Books, t: Books, done: seq<nat>)
    requires Extends(b, t, done)
    ensures |t.entries| == |b.entries| + |done|
  {
  }

  lemma SameCounted(b: Books, t: Books, done: seq<nat>, q: nat, account: string)
    requires Extends(b, t, done) && forall id | id in done :: IsPosted(b, id)
    ensures |b.entries| <= |t.entries|
    ensures forall i | 0 <= i < |b.entries| ::
              Counted(t.entries[..|b.entries|][i], q, account) == Counted(b.entries[i], q, account)
  {
    forall i | 0 <= i < |b.entries|
      ensures Counted(t.entries[i], q, account) == Counted(b.entries[i], q, account)
    {
      EntryAtStage(b, t, done, i);
    }
  }

  lemma StornoAt(b: Books, t: Books, done: seq<nat>, k: nat)
    requires Extends(b, t, done) && k < |done|
    ensures done[k] < |b.entries| && |b.entries| + k < |t.entries| && done[k] !in done[..k]
    ensures t.entries[|b.entries| + k] == StornoOf(b.entries[done[k]], done[k])
  {
  }

  lemma BalanceOfOneMore(entries: seq<Entry>, n: nat, q: nat, account: string)
    requires n < |entries|
    ensures Balance(entries[..n + 1], q, account) == Balance(entries[..n], q, account) + Counted(entries[n], q, account)
  {
    assert entries[..n + 1][..n] == entries[..n];
  }

  lemma StornoCounts(e: Entry, id: nat, q: nat, account: string)
    requires e.status == Posted
    ensures Counted(StornoOf(e, id), q, account) == -Counted(e, q, account)
  {
  }

  lemma {:induction false} BalanceOfStornos(b: Books, t: Books, done: seq<nat>, k: nat, q: nat, account: string)
    requires Extends(b, t, done) && k <= |done| && forall id | id in done :: IsPosted(b, id)
    requires |b.entries| <= |t.entries|
    requires Balance(t.entries[..|b.entries|], q, account) == Balance(b.entries, q, account)
    ensures |b.entries| + k <= |t.entries|
    ensures Balance(t.entries[..|b.entries| + k], q, account) == Balance(Without(b.entries, done[..k]), q, account)
  {
    hide Without, Balance, Extends, Counted, StornoOf;
    if k == 0 {
      StrikingNone(b.entries, done);
    } else {
      BalanceOfStornos(b, t, done, k - 1, q, account);
      StornoAt(b, t, done, k - 1);
      var id := done[k - 1];
      BalanceOfOneMore(t.entries, |b.entries| + k - 1, q, account);
      assert IsPosted(b, id);
      StornoCounts(b.entries[id], id, q, account);
      StrikingOneMore(b.entries, done[..k - 1], id, q, account);
      assert done[..k] == done[..k - 1] + [id];
    }
  }

  lemma StrikingNone(entries: seq<Entry>, done: seq<nat>)
    ensures Without(entries, done[..0]) == entries
  {
  }
}
