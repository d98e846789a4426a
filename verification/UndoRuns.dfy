/** What any number of attempts at the undo leave behind, on any books, wherever each of them stopped. */
module UndoRuns {
  import opened Wrappers
  import opened UndoLedger
  import opened UndoLaws

  /**
   The undo may reverse the entry: the closing entry, or a posted appropriation or opening balance of the next period.
   */
  ghost predicate IsEligible(b: Books, p: nat, id: nat)
    requires HasClosing(b, p)
  {
    var plan := PlanOf(b, p);
    && IsPosted(b, id)
    && (id == plan.closing
        || (plan.next.Some? && (IsAppropriation(b, plan.next.value, id) || IsPostedOpening(b, plan.next.value, id))))
  }

  /** What the undo may have changed of a period. */
  ghost predicate PeriodChange(r: Period, r': Period, isIt: bool, isNext: bool, done: seq<nat>) {
    && r'.previous == r.previous && r'.starts == r.starts && r'.ends == r.ends
    && (r'.closing == r.closing || (isIt && r'.closing == None))
    && (|| (r'.opening == r.opening && r'.openingSet == r.openingSet)
        || (r.opening.Some? && r.opening.value in done && r'.opening == None && !r'.openingSet))
    && (|| (r'.closed == r.closed && r'.closedAt == r.closedAt && r'.lockedAt == r.lockedAt)
        || (isIt && !r'.closed && r'.closedAt == None && r'.lockedAt == None))
    && (r'.continuity == r.continuity || (isNext && r'.continuity == None))
  }

  /**
   From b to t only eligible entries were reversed, each with one mirrored storno, and only the two periods changed.
   */
  ghost predicate Reached(b: Books, p: nat, t: Books, done: seq<nat>)
    requires HasClosing(b, p)
  {
    && Extends(b, t, done)
    && (forall id | id in done :: IsEligible(b, p, id))
    && t.periods.Keys == b.periods.Keys
    && forall q | q in b.periods ::
         PeriodChange(b.periods[q], t.periods[q], q == p, PlanOf(b, p).next == Some(q), done)
  }

  /** The closing entry can be detached in the end, and the next period's opening link is sound. */
  predicate CanFinish(b: Books, p: nat)
    requires HasClosing(b, p)
  {
    var plan := PlanOf(b, p);
    && (IsPosted(b, plan.closing) || HasStorno(b, plan.closing))
    && (plan.next.Some? ==> LinkIsSound(b, plan.next.value))
  }

  /** Whatever an uninterrupted attempt from b reverses is reversed, or still planned. */
  ghost predicate StillPlanned(b: Books, p: nat, t: Books, done: seq<nat>)
    requires HasClosing(b, p) && HasClosing(t, p)
  {
    forall id | id in ReversedBy(PlanOf(b, p), ALL_STEPS) :: id in done || id in ReversedBy(PlanOf(t, p), ALL_STEPS)
  }

  /** A stopped attempt left books that the next attempt takes up. */
  ghost predicate Resumable(b: Books, p: nat, t: Books, done: seq<nat>)
    requires HasClosing(b, p)
  {
    && Reached(b, p, t, done)
    && Ready(t, p) && CanFinish(t, p)
    && PlanOf(t, p).next == PlanOf(b, p).next && PlanOf(t, p).closing == PlanOf(b, p).closing
    && StillPlanned(b, p, t, done)
  }

  /**
   The undo is complete: it verifies, it reversed what an uninterrupted attempt reverses, and no attempt is let in.
   */
  ghost predicate IsUndone(b: Books, p: nat, t: Books, done: seq<nat>)
    requires HasClosing(b, p)
  {
    && Reached(b, p, t, done)
    && Verified(t, PlanOf(b, p))
    && (forall id | id in ReversedBy(PlanOf(b, p), ALL_STEPS) :: id in done)
    && forall answered :: !Undoable(t, p, answered)
  }

  lemma NothingReached(b: Books, p: nat)
    requires Ready(b, p) && CanFinish(b, p)
    ensures Resumable(b, p, b, [])
  {
  }

  // ------------------------------------------------------------ putting attempts together

  lemma ExtendsCompose(b: Books, t: Books, u: Books, done: seq<nat>, more: seq<nat>)
    requires Extends(b, t, done) && Extends(t, u, more)
    requires forall id | id in more :: id < |b.entries| && IsPosted(t, id)
    ensures Extends(b, u, done + more)
  {
    var all := done + more;
    forall i | 0 <= i < |b.entries|
      ensures if i in all then SameVoucher(b.entries[i], u.entries[i]) && u.entries[i].status == Reversed
              else u.entries[i] == b.entries[i]
    {
      EntryAtStage(b, t, done, i);
      EntryAtStage(t, u, more, i);
      assert SameVoucher(b.entries[i], t.entries[i]) && SameVoucher(t.entries[i], u.entries[i]);
      if i !in all {
        UntouchedEntry(b, t, done, i);
        UntouchedEntry(t, u, more, i);
      }
    }
    forall i | 0 <= i < |all|
      ensures all[i] < |b.entries| && u.entries[|b.entries| + i] == StornoOf(b.entries[all[i]], all[i])
      ensures u.entries[all[i]].reversedBy == Some(|b.entries| + i)
    {
      if i < |done| {
        StornoStays(b, t, u, done, more, i);
      } else {
        var k := i - |done|;
        StornoAt(t, u, more, k);
        assert more[k] in more;
        EntryAtStage(b, t, done, more[k]);
        assert StornoOf(t.entries[more[k]], more[k]) == StornoOf(b.entries[more[k]], more[k]);
      }
    }
    forall i, j | 0 <= i < j < |all|
      ensures all[i] != all[j]
    {
      if i < |done| <= j {
        assert all[i] in done && all[j] in more;
        EntryAtStage(b, t, done, all[i]);
      }
    }
  }

  /** An entry reversed by an earlier attempt, and its storno, are never touched by a later one. */
  lemma StornoStays(b: Books, t: Books, u: Books, done: seq<nat>, more: seq<nat>, i: nat)
    requires Extends(b, t, done) && Extends(t, u, more) && i < |done|
    requires forall id | id in more :: id < |b.entries| && IsPosted(t, id)
    ensures |b.entries| + i < |u.entries|
    ensures done[i] < |b.entries| && u.entries[|b.entries| + i] == StornoOf(b.entries[done[i]], done[i])
    ensures u.entries[done[i]].reversedBy == Some(|b.entries| + i)
  {
    EntryAtStage(b, t, done, done[i]);
    UntouchedEntry(t, u, more, done[i]);
    StornoAt(b, t, done, i);
    var at := |b.entries| + i;
    EntryAtStage(t, u, more, at);
    assert at !in more;
    UntouchedEntry(t, u, more, at);
  }

  lemma UntouchedEntry(b: Books, t: Books, done: seq<nat>, i: nat)
    requires Extends(b, t, done) && i < |b.entries| && i !in done
    ensures i < |t.entries| && t.entries[i] == b.entries[i]
  {
  }

  /** What an attempt on reached books plans to reverse was eligible from the start, and is not reversed yet. */
  lemma PlannedIsEligible(b: Books, p: nat, t: Books, done: seq<nat>, r: nat, id: nat)
    requires Ready(b, p) && Resumable(b, p, t, done) && r <= ALL_STEPS && id in ReversedBy(PlanOf(t, p), r)
    ensures id < |b.entries| && id !in done && IsPosted(t, id) && IsEligible(b, p, id)
  {
    hide NextPeriod;
    PlanFacts(t, p);
    ReversedSoFar(PlanOf(t, p), r);
    EntryAtStage(b, t, done, id);
    assert t.entries[id].source != Storno;
    assert SameVoucher(b.entries[id], t.entries[id]);
  }

  lemma PeriodsCompose(b: Books, p: nat, t: Books, done: seq<nat>, r: nat, q: nat)
    requires Ready(b, p) && Resumable(b, p, t, done) && r <= ALL_STEPS && q in b.periods
    ensures q in Stage(t, p, r).periods
    ensures PeriodChange(b.periods[q], Stage(t, p, r).periods[q], q == p, PlanOf(b, p).next == Some(q),
                         done + ReversedBy(PlanOf(t, p), r))
  {
    hide Stage, NextPeriod, Extends;
    var plan := PlanOf(t, p);
    PlanFacts(t, p);
    StageShape(t, p, r);
    PeriodFacts(plan, t, q, r);
    ReversedSoFar(plan, r);
    assert PeriodChange(b.periods[q], t.periods[q], q == p, PlanOf(b, p).next == Some(q), done);
  }

  lemma StillReached(b: Books, p: nat, t: Books, done: seq<nat>, r: nat)
    requires Ready(b, p) && Resumable(b, p, t, done) && r <= ALL_STEPS
    ensures Reached(b, p, Stage(t, p, r), done + ReversedBy(PlanOf(t, p), r))
  {
    hide Stage, PlanOf, Extends, PeriodChange, IsEligible;
    var u, more := Stage(t, p, r), ReversedBy(PlanOf(t, p), r);
    StageShape(t, p, r);
    forall id | id in more
      ensures id < |b.entries| && IsPosted(t, id) && IsEligible(b, p, id)
    {
      PlannedIsEligible(b, p, t, done, r, id);
    }
    ExtendsCompose(b, t, u, done, more);
    forall q | q in b.periods
      ensures PeriodChange(b.periods[q], u.periods[q], q == p, PlanOf(b, p).next == Some(q), done + more)
    {
      PeriodsCompose(b, p, t, done, r, q);
    }
  }

  // ------------------------------------------------------------ one more attempt

  /** The opening link stays sound while an attempt goes on. */
  lemma LinkStaysSound(t: Books, p: nat, r: nat)
    requires Ready(t, p) && r < ALL_STEPS && PlanOf(t, p).next.Some? && LinkIsSound(t, PlanOf(t, p).next.value)
    ensures PlanOf(t, p).next.value in Stage(t, p, r).periods
    ensures LinkIsSound(Stage(t, p, r), PlanOf(t, p).next.value)
  {
    hide Stage, NextPeriod;
    var plan, u := PlanOf(t, p), Stage(t, p, r);
    var n := plan.next.value;
    PlanFacts(t, p);
    StageShape(t, p, r);
    ReversedSoFar(plan, r);
    PeriodFacts(plan, t, n, r);
    if t.periods[n].opening.Some? {
      var id := t.periods[n].opening.value;
      assert IsOpening(t, n, id);
      EntryAtStage(t, u, ReversedBy(plan, r), id);
      assert plan.opening == Some(id);
    }
  }

  lemma PlannedStaysPlanned(b: Books, p: nat, t: Books, done: seq<nat>, r: nat)
    requires Ready(b, p) && Resumable(b, p, t, done) && r < ALL_STEPS
    ensures HasClosing(Stage(t, p, r), p)
    ensures StillPlanned(b, p, Stage(t, p, r), done + ReversedBy(PlanOf(t, p), r))
  {
    hide Stage, PlanOf, Reached;
    var u, plan := Stage(t, p, r), PlanOf(t, p);
    ResumedPlan(t, p, r);
    var again := PlanOf(u, p);
    forall id | id in ReversedBy(plan, ALL_STEPS) && id !in ReversedBy(plan, r)
      ensures id in ReversedBy(again, ALL_STEPS)
    {
      ReversedSoFar(plan, ALL_STEPS);
      ReversedSoFar(plan, r);
      ReversedSoFar(again, ALL_STEPS);
    }
  }

  /** An attempt on books that earlier attempts left, stopped after any of its steps or not at all. */
  lemma OneMoreAttempt(b: Books, p: nat, t: Books, done: seq<nat>, r: nat)
    requires Ready(b, p) && Resumable(b, p, t, done) && r <= ALL_STEPS
    ensures var u, all := Stage(t, p, r), done + ReversedBy(PlanOf(t, p), r);
            if r < ALL_STEPS then Resumable(b, p, u, all) else IsUndone(b, p, u, all)
  {
    hide Stage, PlanOf, Reached, LinkIsSound;
    StillReached(b, p, t, done, r);
    if r < ALL_STEPS {
      ResumedPlan(t, p, r);
      StaysDetachable(t, p, r);
      if PlanOf(t, p).next.Some? {
        LinkStaysSound(t, p, r);
      }
      PlannedStaysPlanned(b, p, t, done, r);
    } else {
      VerifiedAtLast(b, p, t, done);
      RefusedOnceDetached(t, p);
    }
  }

  lemma VerifiedAtLast(b: Books, p: nat, t: Books, done: seq<nat>)
    requires Ready(b, p) && Resumable(b, p, t, done)
    ensures Verified(Stage(t, p, ALL_STEPS), PlanOf(b, p))
  {
    hide Follow, NextPeriod, Extends, Reached, StillPlanned;
    VerifiesExactlyWhen(t, p, ALL_ANSWERED);
  }

  /** The closing entry can be detached from any stage on. */
  lemma StaysDetachable(b: Books, p: nat, k: nat)
    requires Ready(b, p) && k < ALL_STEPS
    requires IsPosted(b, PlanOf(b, p).closing) || HasStorno(b, PlanOf(b, p).closing)
    ensures IsPosted(Stage(b, p, k), PlanOf(b, p).closing) || HasStorno(Stage(b, p, k), PlanOf(b, p).closing)
  {
    hide Stage, NextPeriod;
    var plan, t := PlanOf(b, p), Stage(b, p, k);
    PlanFacts(b, p);
    StageShape(b, p, k);
    ReversedSoFar(plan, k);
    var done := ReversedBy(plan, k);
    EntryAtStage(b, t, done, plan.closing);
    if plan.closing in done {
      AStornoWasPosted(b, t, done, plan.closing);
    } else if HasStorno(b, plan.closing) {
      StornosKept(b, t, done, plan.closing);
    }
  }

  // ------------------------------------------------------------ what a completed undo means

  lemma EligibleIsPosted(b: Books, p: nat, id: nat)
    requires Ready(b, p) && IsEligible(b, p, id)
    ensures IsPosted(b, id) && b.entries[id].source != Storno
  {
    hide NextPeriod;
    PlanFacts(b, p);
  }

  /**
   However many attempts it took: each reversed entry has one posted storno, and every balance of every period is
   what it would be had the reversed entries never been booked.
   */
  lemma UndoneMeans(b: Books, p: nat, t: Books, done: seq<nat>)
    requires Ready(b, p) && IsUndone(b, p, t, done)
    ensures forall id | id in done && !HasStorno(b, id) ::
              id < |t.entries| && t.entries[id].status == Reversed && ExactlyOneStorno(t, id)
    ensures forall q, account :: Balance(t.entries, q, account) == Balance(Without(b.entries, done), q, account)
  {
    hide NextPeriod, PlanOf, Extends, HasStorno, ExactlyOneStorno, Balance, Without, Verified, PeriodChange;
    forall id | id in done
      ensures IsPosted(b, id) && b.entries[id].source != Storno
    {
      EligibleIsPosted(b, p, id);
    }
    OnlyReversedMeans(b, t, done);
  }

  /** The entry was a posted one of the kinds that the undo of p is for. */
  ghost predicate MayBeReversed(b: Books, p: nat, id: nat)
    requires p in b.periods
  {
    && id < |b.entries| && b.entries[id].status == Posted
    && (|| b.periods[p].closing == Some(id)
        || exists n | n in b.periods ::
             IsNext(b, p, n, Answers(true, true, true)) && b.entries[id].period == n
             && b.entries[id].source in {ResultAppropriation, OpeningBalance})
  }

  /**
   However many attempts it took: all that was due is reversed and nothing of another kind is, and the period is as
   open, and the next one as bare, as before the closing.
   */
  lemma UndoneReversesWhatIsDue(b: Books, p: nat, t: Books, done: seq<nat>)
    requires Ready(b, p) && IsUndone(b, p, t, done)
    ensures forall id | IsDue(b, p, id) :: id in done
    ensures forall id | id in done :: MayBeReversed(b, p, id) && id < |t.entries| && t.entries[id].status == Reversed
    ensures p in t.periods && !t.periods[p].closed && t.periods[p].lockedAt == None && t.periods[p].closing == None
    ensures forall n | n in b.periods && IsNext(b, p, n, Answers(true, true, true)) ::
              n in t.periods && t.periods[n].opening == None && !t.periods[n].openingSet
  {
    hide IsDue, IsNext, NextPeriod, ReversedBy, PeriodChange, LastAppropriation, LastOpening;
    PlanReadMeans(b, p, ALL_ANSWERED);
    NextIsAPeriod(b, p);
    forall id: nat | IsDue(b, p, id)
      ensures id in done
    {
      ReversesWhatIsDue(b, p, id);
    }
    forall id | id in done
      ensures MayBeReversed(b, p, id) && id < |t.entries| && t.entries[id].status == Reversed
    {
      assert IsEligible(b, p, id);
      var plan := PlanOf(b, p);
      assert plan.next.Some? ==> IsNext(b, p, plan.next.value, ALL_ANSWERED);
      EntryAtStage(b, t, done, id);
    }
  }

  // ------------------------------------------------------------ attempts that are not fully answered

  /** Only posted entries that are no stornos were reversed, each with one mirrored storno. */
  ghost predicate OnlyReversed(b: Books, t: Books, done: seq<nat>) {
    Extends(b, t, done) && forall id | id in done :: IsPosted(b, id) && b.entries[id].source != Storno
  }

  /** Whatever its lookups answered and wherever it stopped, an attempt reverses entries that no earlier one did. */
  lemma AnyAttemptReverses(b: Books, p: nat, t: Books, done: seq<nat>, answered: Answers, r: nat)
    requires OnlyReversed(b, t, done) && Undoable(t, p, answered) && OwnClosing(t, p) && r <= ALL_STEPS
    ensures var plan := PlanRead(t, p, answered);
            OnlyReversed(b, Follow(plan, t, r), done + ReversedBy(plan, r)) && OwnClosing(Follow(plan, t, r), p)
  {
    hide NextPeriod, Follow, Extends, ReversedBy;
    var plan := PlanRead(t, p, answered);
    var u, more := Follow(plan, t, r), ReversedBy(plan, r);
    PlanFits(t, p, answered);
    FollowShape(plan, t, r);
    ReversedSoFar(plan, r);
    forall id | id in more
      ensures id < |b.entries| && IsPosted(t, id) && IsPosted(b, id) && b.entries[id].source != Storno
    {
      StillPostedEntry(b, t, done, id);
    }
    ExtendsCompose(b, t, u, done, more);
    PeriodFacts(plan, t, p, r);
    EntryAtStage(t, u, more, plan.closing);
  }

  lemma StillPostedEntry(b: Books, t: Books, done: seq<nat>, id: nat)
    requires Extends(b, t, done) && IsPosted(t, id) && t.entries[id].source != Storno
    ensures id < |b.entries| && IsPosted(b, id) && b.entries[id] == t.entries[id]
  {
    ExtendsLength(b, t, done);
    EntryAtStage(b, t, done, id);
  }

  /**
   What holds after any attempts: one storno for each reversed entry, and balances as if those had not been booked.
   */
  lemma OnlyReversedMeans(b: Books, t: Books, done: seq<nat>)
    requires OnlyReversed(b, t, done)
    ensures forall id | id in done && !HasStorno(b, id) ::
              id < |t.entries| && t.entries[id].status == Reversed && ExactlyOneStorno(t, id)
    ensures forall q, account :: Balance(t.entries, q, account) == Balance(Without(b.entries, done), q, account)
  {
    hide Extends, HasStorno, ExactlyOneStorno, Balance, Without;
    forall id | id in done && !HasStorno(b, id)
      ensures id < |t.entries| && t.entries[id].status == Reversed && ExactlyOneStorno(t, id)
    {
      OneStornoEach(b, t, done, id);
    }
    forall q, account
      ensures Balance(t.entries, q, account) == Balance(Without(b.entries, done), q, account)
    {
      BalancesWithoutTheReversed(b, t, done, q, account);
    }
  }
}
