/**
 The administrative undo of a year-end closing: one attempt on a ledger changed in place, where every call may be
 rejected by the database or lose its answer, and any number of attempts one after another.
 */
module YearEndUndo {
  import opened Wrappers
  import opened UndoLedger
  import opened UndoLaws
  import opened UndoRuns

  /** The arguments, and what the lookups outside the ledger answer. */
  datatype Request = Request(period: nat, submissions: nat, signatureRequests: nat, lockedThrough: Option<int>,
                             user: Option<string>, owner: Option<string>, member: Option<string>, commit: bool)

  datatype AuditRow = AuditRow(user: string, period: nat, before: Period)

  datatype Reply = Accepted | Rejected | Lost(applied: bool)

  datatype Outcome =
    | Refused
    | DryRun
    | Stopped(rejected: bool)
    | AuditMissing
    | CheckFailed(answered: bool)
    | Done

  predicate Refuses(b: Books, rq: Request, answered: Answers) {
    || !Undoable(b, rq.period, answered)
    || rq.submissions > 0
    || rq.signatureRequests > 0
    || (rq.lockedThrough.Some? && rq.lockedThrough.value >= b.periods[rq.period].ends)
    || (rq.user.None? && rq.owner.None? && rq.member.None?)
  }

  function Attribution(rq: Request): string {
    if rq.user.Some? then rq.user.value else if rq.owner.Some? then rq.owner.value else rq.member.GetOr("")
  }

  /** The rows that tries with these answers wrote. */
  function RowsWritten(replies: seq<Reply>): (n: nat)
    ensures n <= |replies| && (Accepted in replies ==> n >= 1)
  {
    if replies == [] then 0
    else
      var reply := replies[|replies| - 1];
      RowsWritten(replies[..|replies| - 1]) + if reply == Accepted || reply == Lost(true) then 1 else 0
  }

  /** The attempt is let in, said of the ledger and the request alone. */
  lemma LetInExactlyWhen(b: Books, rq: Request, answered: Answers)
    ensures !Refuses(b, rq, answered) <==>
              && rq.period in b.periods && b.periods[rq.period].closing.Some?
              && b.periods[rq.period].closing.value < |b.entries|
              && b.entries[b.periods[rq.period].closing.value].status in {Posted, Reversed}
              && (forall q | q in b.periods && IsNext(b, rq.period, q, answered) ::
                    !b.periods[q].closed && b.periods[q].lockedAt == None && b.periods[q].closing == None)
              && rq.submissions == 0 && rq.signatureRequests == 0
              && (rq.lockedThrough.Some? ==> rq.lockedThrough.value < b.periods[rq.period].ends)
              && (rq.user.Some? || rq.owner.Some? || rq.member.Some?)
  {
    hide NextPeriod, IsNext;
    if rq.period in b.periods {
      NextIsUnique(b, rq.period, answered);
      var next := NextPeriod(b, rq.period, answered);
      assert next.Some? ==> IsNext(b, rq.period, next.value, answered);
    }
  }

  lemma NextIsUnique(b: Books, p: nat, answered: Answers)
    requires p in b.periods
    ensures forall q: nat :: NextPeriod(b, p, answered) == Some(q) <==> IsNext(b, p, q, answered)
  {
    forall q: nat
      ensures NextPeriod(b, p, answered) == Some(q) <==> IsNext(b, p, q, answered)
    {
      NextPeriodIsNext(b, p, q, answered);
    }
  }

  class Ledger {
    var entries: seq<Entry>
    var periods: map<nat, Period>
    var audit: seq<AuditRow>

    constructor (entries: seq<Entry>, periods: map<nat, Period>)
      ensures Now() == Books(entries, periods) && audit == []
    {
      this.entries := entries;
      this.periods := periods;
      audit := [];
    }

    function Now(): Books
      reads this
    {
      Books(entries, periods)
    }

    // ------------------------------------------------------------ calls to the database

    method ReverseEntry(id: nat) returns (reply: Reply)
      modifies this`entries, this`periods
      ensures reply.Rejected? <==> !old(MayReverse(Now(), id))
      ensures Now() == if reply == Accepted || reply == Lost(true) then old(Reverse(Now(), id)) else old(Now())
    {
      if !MayReverse(Now(), id) {
        return Rejected;
      }
      reply := *;
      if reply == Rejected {
        reply := Lost(false);
      }
      if reply != Lost(false) {
        var after := Reverse(Now(), id);
        entries, periods := after.entries, after.periods;
      }
    }

    method ClearContinuity(q: nat) returns (reply: Reply)
      modifies this`periods
      ensures !reply.Rejected?
      ensures Now() == if reply == Accepted || reply == Lost(true) then old(ResetContinuity(Now(), q)) else old(Now())
    {
      reply := *;
      if reply == Rejected {
        reply := Lost(false);
      }
      if reply != Lost(false) {
        periods := ResetContinuity(Now(), q).periods;
      }
    }

    method ReopenPeriod(q: nat) returns (reply: Reply)
      modifies this`periods
      ensures !reply.Rejected?
      ensures Now() == if reply == Accepted || reply == Lost(true) then old(Reopen(Now(), q)) else old(Now())
    {
      reply := *;
      if reply == Rejected {
        reply := Lost(false);
      }
      if reply != Lost(false) {
        periods := Reopen(Now(), q).periods;
      }
    }

    method DetachClosing(q: nat, closing: nat) returns (reply: Reply)
      modifies this`periods
      ensures reply.Rejected? <==> !old(MayDetach(Now(), closing))
      ensures Now() == if reply == Accepted || reply == Lost(true) then old(Detach(Now(), q)) else old(Now())
    {
      if !MayDetach(Now(), closing) {
        return Rejected;
      }
      reply := *;
      if reply == Rejected {
        reply := Lost(false);
      }
      if reply != Lost(false) {
        periods := Detach(Now(), q).periods;
      }
    }

    /**
     Up to three tries, the first accepted one being the last; a try whose answer is lost may have written its row.
     */
    method WriteAudit(row: AuditRow) returns (ok: bool, ghost replies: seq<Reply>)
      modifies this`audit
      ensures 1 <= |replies| <= 3 && (ok || |replies| == 3)
      ensures forall i | 0 <= i < |replies| :: replies[i] == Accepted <==> ok && i == |replies| - 1
      ensures audit == old(audit) + seq(RowsWritten(replies), _ => row)
    {
      ok, replies := false, [];
      for attempt := 1 to 4
        invariant |replies| == attempt - 1 && !ok
        invariant forall i | 0 <= i < |replies| :: replies[i] != Accepted
        invariant audit == old(audit) + seq(RowsWritten(replies), _ => row)
      {
        var reply: Reply := *;
        if reply == Accepted || reply == Lost(true) {
          audit := audit + [row];
        }
        assert (replies + [reply])[..|replies|] == replies;
        replies := replies + [reply];
        ok := reply == Accepted;
        if ok {
          break;
        }
      }
    }

    // ------------------------------------------------------------ one attempt

    /** Scans the next period's entries in voucher order. */
    method ScanNext(n: nat) returns (appropriation: Option<nat>, opening: Option<nat>)
      requires n in periods
      ensures appropriation == LastAppropriation(Now(), n, |entries|)
      ensures opening == LastOpening(Now(), n, |entries|)
    {
      appropriation, opening := None, None;
      for id := 0 to |entries|
        invariant appropriation == LastAppropriation(Now(), n, id)
        invariant opening == LastOpening(Now(), n, id)
      {
        var e := entries[id];
        if e.period != n || e.status != Posted {
          continue;
        }
        if e.source == OpeningBalance && (periods[n].opening.None? || periods[n].opening == Some(id)) {
          opening := Some(id);
        } else if e.source == ResultAppropriation {
          appropriation := Some(id);
        }
      }
    }

    /** The preconditions, and what the attempt will do; nothing is changed. */
    method Prepare(rq: Request, answered: Answers) returns (plan: Option<Plan>)
      ensures plan.None? <==> Refuses(Now(), rq, answered)
      ensures plan.Some? ==> HasClosing(Now(), rq.period) && plan.value == PlanRead(Now(), rq.period, answered)
      ensures plan.Some? ==> forall q: nat :: plan.value.next == Some(q) <==> IsNext(Now(), rq.period, q, answered)
    {
      hide IsNext, IsOnlyChained, IsOnlyDayAfter, NextPeriod, LastAppropriation, LastOpening;
      if rq.period !in periods {
        return None;
      }
      var period := periods[rq.period];
      if period.closing.None? {
        return None;
      }
      if rq.submissions > 0 || rq.signatureRequests > 0 {
        return None;
      }
      if rq.lockedThrough.Some? && rq.lockedThrough.value >= period.ends {
        return None;
      }
      var closing := period.closing.value;
      if closing >= |entries| {
        return None;
      }
      if entries[closing].status != Posted && entries[closing].status != Reversed {
        return None;
      }
      var next := NextPeriod(Now(), rq.period, answered);
      NextIsUnique(Now(), rq.period, answered);
      var appropriation, opening := None, None;
      if next.Some? {
        var n := next.value;
        if periods[n].closed || periods[n].closing.Some? {
          return None;
        }
        if periods[n].lockedAt.Some? {
          return None;
        }
        if answered.entries {
          appropriation, opening := ScanNext(n);
        }
      }
      if rq.user.None? && rq.owner.None? && rq.member.None? {
        return None;
      }
      plan := Some(Plan(rq.period, next, appropriation, opening, closing,
                        period.closed || period.lockedAt.Some?, entries[closing].status == Posted));
    }

    /** Follows the plan until it is through or a call is rejected or lost. */
    method Execute(plan: Plan) returns (stop: Reply, ghost reached: nat)
      requires plan.reverseClosing == IsPosted(Now(), plan.closing)
      modifies this`entries, this`periods
      ensures reached <= ALL_STEPS && Now() == Follow(plan, old(Now()), reached)
      ensures stop == Accepted ==> reached == ALL_STEPS
      ensures stop == Rejected ==> reached < ALL_STEPS && !MayStep(plan, Now(), reached + 1)
    {
      hide Reverse, ResetContinuity, Reopen, Detach, MayReverse, MayDetach, Follow, Step, Target, MayStep;
      ghost var was := Now();
      reached := 0;
      assert Now() == Follow(plan, was, 0) by {
        NothingFollowed(plan, was);
      }
      StepMeans(plan, was, 1);
      if plan.appropriation.Some? {
        stop := ReverseEntry(plan.appropriation.value);
        if stop != Accepted {
          reached := if stop == Lost(true) then 1 else 0;
          return;
        }
      }
      StepMeans(plan, was, 2);
      if plan.opening.Some? {
        stop := ReverseEntry(plan.opening.value);
        if stop != Accepted {
          reached := if stop == Lost(true) then 2 else 1;
          return;
        }
      }
      StepMeans(plan, was, 3);
      if plan.next.Some? {
        stop := ClearContinuity(plan.next.value);
        if stop != Accepted {
          reached := if stop == Lost(true) then 3 else 2;
          return;
        }
      }
      StepMeans(plan, was, 4);
      if plan.reopen {
        stop := ReopenPeriod(plan.period);
        if stop != Accepted {
          reached := if stop == Lost(true) then 4 else 3;
          return;
        }
      }
      StepMeans(plan, was, 5);
      if plan.reverseClosing {
        stop := ReverseEntry(plan.closing);
        if stop != Accepted {
          reached := if stop == Lost(true) then 5 else 4;
          return;
        }
      }
      StepMeans(plan, was, 6);
      stop := DetachClosing(plan.period, plan.closing);
      reached := if stop == Accepted || stop == Lost(true) then 6 else 5;
    }

    lemma NothingFollowed(plan: Plan, b: Books)
      ensures Follow(plan, b, 0) == b
    {
    }

    /** What one more step makes of the books before it, and when the database lets it through. */
    lemma StepMeans(plan: Plan, was: Books, j: nat)
      requires 1 <= j <= ALL_STEPS
      ensures var b := Follow(plan, was, j - 1);
              && Follow(plan, was, j) ==
                   (match j
                    case 1 => if plan.appropriation.Some? then Reverse(b, plan.appropriation.value) else b
                    case 2 => if plan.opening.Some? then Reverse(b, plan.opening.value) else b
                    case 3 => if plan.next.Some? then ResetContinuity(b, plan.next.value) else b
                    case 4 => if plan.reopen then Reopen(b, plan.period) else b
                    case 5 => if plan.reverseClosing then Reverse(b, plan.closing) else b
                    case _ => Detach(b, plan.period))
              && (MayStep(plan, b, j) <==>
                   match j
                   case 1 => plan.appropriation.Some? ==> MayReverse(b, plan.appropriation.value)
                   case 2 => plan.opening.Some? ==> MayReverse(b, plan.opening.value)
                   case 5 => plan.reverseClosing ==> MayReverse(b, plan.closing)
                   case 6 => MayDetach(b, plan.closing)
                   case _ => true)
    {
      hide Reverse, ResetContinuity, Reopen, Detach, MayReverse, MayDetach;
    }

    /** One run of the script, which may be stopped anywhere. */
    method Attempt(rq: Request, answered: Answers)
      returns (outcome: Outcome, ghost reached: nat, ghost tries: seq<Reply>)
      modifies this
      ensures outcome == Refused <==> Refuses(old(Now()), rq, answered)
      ensures outcome == DryRun <==> !Refuses(old(Now()), rq, answered) && !rq.commit
      ensures outcome == Refused || outcome == DryRun ==> Now() == old(Now()) && audit == old(audit)
      ensures outcome != Refused && outcome != DryRun ==>
                && HasClosing(old(Now()), rq.period) && reached <= ALL_STEPS && |tries| <= 3
                && var plan := PlanRead(old(Now()), rq.period, answered);
                var row := AuditRow(Attribution(rq), rq.period, old(periods[rq.period]));
                && Now() == Follow(plan, old(Now()), reached)
                && (!outcome.Stopped? ==> reached == ALL_STEPS)
                && (outcome == Stopped(true) ==> reached < ALL_STEPS && !MayStep(plan, Now(), reached + 1))
                && (outcome == Done ==> Verified(Now(), plan))
                && (outcome == CheckFailed(true) ==> !Verified(Now(), plan))
                && (outcome.Stopped? <==> tries == [])
                && (outcome == Done || outcome.CheckFailed? <==> Accepted in tries)
                && (outcome == AuditMissing ==> |tries| == 3)
                && audit == old(audit) + seq(RowsWritten(tries), _ => row)
      ensures outcome == Done || outcome == CheckFailed(true) ==>
                && HasClosing(old(Now()), rq.period)
                && var plan := PlanRead(old(Now()), rq.period, answered);
                (outcome == Done <==>
                 && plan.closing < |entries| && entries[plan.closing].status == Reversed
                 && rq.period in periods && !periods[rq.period].closed
                 && periods[rq.period].lockedAt == None && periods[rq.period].closing == None
                 && (plan.next.Some? ==>
                       && plan.next.value in periods
                       && periods[plan.next.value].opening == None && !periods[plan.next.value].openingSet))
      ensures forall row | row in audit[|old(audit)|..] ::
                rq.user == Some(row.user)
                || (rq.user == None && rq.owner == Some(row.user))
                || (rq.user == None && rq.owner == None && rq.member == Some(row.user))
    {
      hide Undoable, Follow, MayStep;
      reached, tries := 0, [];
      var plan := Prepare(rq, answered);
      if plan.None? {
        return Refused, 0, [];
      }
      if !rq.commit {
        return DryRun, 0, [];
      }
      var before := periods[rq.period];
      var stop;
      stop, reached := Execute(plan.value);
      if stop != Accepted {
        return Stopped(stop == Rejected), reached, [];
      }
      var died: bool := *;
      if died {
        return Stopped(false), reached, [];
      }
      var ok;
      ok, tries := WriteAudit(AuditRow(Attribution(rq), rq.period, before));
      assert tries[|tries| - 1] in tries;
      if !ok {
        return AuditMissing, reached, tries;
      }
      var checked: bool := *;
      if !checked || !Verified(Now(), plan.value) {
        return CheckFailed(checked), reached, tries;
      }
      outcome := Done;
    }

    // ------------------------------------------------------------ any number of attempts

    /**
     Attempt after attempt, each stopped anywhere or run to its end. No call is ever rejected and no check that is
     answered fails; an attempt that is not stopped leaves the undo complete, and attempts are refused just when it
     is. A complete undo verifies, reversed at least what an uninterrupted attempt reverses, and left one storno for
     each reversed entry and the balances as if those had never been booked. With one entry of each kind the books
     are always at a stage of the one uninterrupted undo.
     */
    method UndoDespiteCrashes(rq: Request, attempts: nat)
      returns (outcomes: seq<Outcome>, ghost finished: bool, ghost done: seq<nat>, ghost reached: nat)
      requires rq.commit && Ready(Now(), rq.period) && !Refuses(Now(), rq, ALL_ANSWERED) && CanFinish(Now(), rq.period)
      modifies this
      ensures |outcomes| == attempts
      ensures if finished then IsUndone(old(Now()), rq.period, Now(), done)
              else Resumable(old(Now()), rq.period, Now(), done)
      ensures forall o | o in outcomes :: o in {Refused, Stopped(false), AuditMissing, CheckFailed(false), Done}
      ensures (exists o | o in outcomes :: !o.Stopped?) ==> finished
      ensures Done in outcomes ==> |audit| > |old(audit)|
      ensures old(audit) <= audit && |audit| <= |old(audit)| + 3
      ensures !finished ==> audit == old(audit)
      ensures finished ==>
                && (forall id | id in done && !HasStorno(old(Now()), id) :: ExactlyOneStorno(Now(), id))
                && forall q, account ::
                     Balance(Now().entries, q, account) == Balance(Without(old(Now()).entries, done), q, account)
      ensures finished ==>
                && (forall id: nat | IsDue(old(Now()), rq.period, id) :: id in done)
                && (forall id | id in done ::
                      && MayBeReversed(old(Now()), rq.period, id)
                      && id < |entries| && entries[id].status == Reversed)
                && rq.period in periods && !periods[rq.period].closed
                && periods[rq.period].lockedAt == None && periods[rq.period].closing == None
                && forall n | n in old(periods) && IsNext(old(Now()), rq.period, n, Answers(true, true, true)) ::
                     n in periods && periods[n].opening == None && !periods[n].openingSet
      ensures OneOfEach(old(Now()), PlanOf(old(Now()), rq.period)) ==>
                reached <= ALL_STEPS && (finished <==> reached == ALL_STEPS)
                  && Now() == Stage(old(Now()), rq.period, reached)
    {
      hide Stage, Refuses, Undoable, Verified, OneOfEach, Follow, MayStep, PlanOf, PlanRead;
      hide Resumable, IsUndone, CanFinish, Balance, Without, HasStorno, ExactlyOneStorno;
      hide IsDue, IsNext, MayBeReversed;
      ghost var start := Now();
      outcomes, finished, done, reached := [], false, [], 0;
      StartsResumable(start, rq.period);
      for i := 0 to attempts
        invariant |outcomes| == i
        invariant if finished then IsUndone(start, rq.period, Now(), done) else Resumable(start, rq.period, Now(), done)
        invariant forall o | o in outcomes :: o in {Refused, Stopped(false), AuditMissing, CheckFailed(false), Done}
        invariant (exists o | o in outcomes :: !o.Stopped?) ==> finished
        invariant Done in outcomes ==> |audit| > |old(audit)|
        invariant old(audit) <= audit && |audit| <= |old(audit)| + 3
        invariant !finished ==> audit == old(audit)
        invariant OneOfEach(start, PlanOf(start, rq.period)) ==>
                    reached <= ALL_STEPS && (finished <==> reached == ALL_STEPS)
                      && Now() == Stage(start, rq.period, reached)
      {
        ghost var from := Now();
        var outcome;
        ghost var more, tries;
        outcome, more, tries := Attempt(rq, ALL_ANSWERED);
        if finished {
          UndoneIsRefused(start, rq, from, done);
        } else {
          ghost var r := if more <= ALL_STEPS then more else 0;
          AttemptOnReached(start, rq, from, done, r);
          if OneOfEach(start, PlanOf(start, rq.period)) {
            ResumesWhenOneOfEach(start, rq.period, reached, r);
          }
          done := done + ReversedBy(PlanOf(from, rq.period), r);
          finished := r == ALL_STEPS;
          reached := if r < reached then reached else r;
        }
        outcomes := outcomes + [outcome];
      }
      if finished {
        UndoneMeans(start, rq.period, Now(), done);
        UndoneReversesWhatIsDue(start, rq.period, Now(), done);
      }
    }

    /**
     Attempts whose lookups may each answer differently, each stopped anywhere or run to its end. They may reverse too
     little, but every entry they reverse has one storno, no other entry changed, and the balances are as if the
     reversed ones had never been booked.
     */
    method AnyAttempts(rq: Request, answers: seq<Answers>) returns (outcomes: seq<Outcome>, ghost done: seq<nat>)
      requires OwnClosing(Now(), rq.period)
      modifies this
      ensures |outcomes| == |answers| && OnlyReversed(old(Now()), Now(), done)
      ensures forall id | id in done && !HasStorno(old(Now()), id) :: ExactlyOneStorno(Now(), id)
      ensures forall q, account ::
                Balance(Now().entries, q, account) == Balance(Without(old(Now()).entries, done), q, account)
    {
      hide Refuses, Undoable, Verified, Follow, MayStep, PlanRead, OwnClosing, OnlyReversed;
      hide Balance, Without, HasStorno, ExactlyOneStorno;
      ghost var start := Now();
      outcomes, done := [], [];
      NothingReversed(start);
      for i := 0 to |answers|
        invariant |outcomes| == i && OwnClosing(Now(), rq.period) && OnlyReversed(start, Now(), done)
      {
        ghost var from := Now();
        var outcome;
        ghost var r, tries;
        outcome, r, tries := Attempt(rq, answers[i]);
        if outcome != Refused && outcome != DryRun {
          LetIn(from, rq, answers[i]);
          AnyAttemptReverses(start, rq.period, from, done, answers[i], r);
          done := done + ReversedBy(PlanRead(from, rq.period, answers[i]), r);
        }
        outcomes := outcomes + [outcome];
      }
      OnlyReversedMeans(start, Now(), done);
    }

    lemma LetIn(b: Books, rq: Request, answered: Answers)
      requires !Refuses(b, rq, answered)
      ensures Undoable(b, rq.period, answered)
    {
    }

    lemma NothingReversed(b: Books)
      ensures OnlyReversed(b, b, [])
    {
    }
  }

  lemma StartsResumable(b: Books, p: nat)
    requires Ready(b, p) && CanFinish(b, p)
    ensures HasClosing(b, p) && Stage(b, p, 0) == b && Resumable(b, p, b, [])
  {
    NothingReached(b, p);
  }

  lemma UndoneIsRefused(b: Books, rq: Request, t: Books, done: seq<nat>)
    requires HasClosing(b, rq.period) && IsUndone(b, rq.period, t, done)
    ensures Refuses(t, rq, ALL_ANSWERED)
  {
  }

  /** What an attempt does to the books that earlier attempts left unfinished. */
  lemma AttemptOnReached(b: Books, rq: Request, t: Books, done: seq<nat>, r: nat)
    requires Ready(b, rq.period) && !Refuses(b, rq, ALL_ANSWERED) && Resumable(b, rq.period, t, done) && r <= ALL_STEPS
    ensures var p := rq.period;
            && !Refuses(t, rq, ALL_ANSWERED) && HasClosing(t, p)
            && var plan, u := PlanRead(t, p, ALL_ANSWERED), Stage(t, p, r);
            && plan == PlanOf(t, p) && Follow(plan, t, r) == u
            && (r < ALL_STEPS ==> MayStep(plan, u, r + 1))
            && (r == ALL_STEPS ==> Verified(u, plan))
            && if r < ALL_STEPS then Resumable(b, p, u, done + ReversedBy(plan, r))
               else IsUndone(b, p, u, done + ReversedBy(plan, r))
  {
    hide Follow, MayStep, Verified, Extends, Stage, NextPeriod, PeriodChange, StillPlanned;
    var p := rq.period;
    OneMoreAttempt(b, p, t, done, r);
    LetThroughExactlyWhen(t, p);
    if r < ALL_STEPS {
      assert IsLetThrough(t, p, r + 1);
    }
    StageIsFollowed(t, p, r);
    SamePeriodEnd(b, p, t, done);
    VerifiesExactlyWhen(t, p, ALL_ANSWERED);
  }

  lemma StageIsFollowed(t: Books, p: nat, r: nat)
    requires HasClosing(t, p)
    ensures Stage(t, p, r) == Follow(PlanRead(t, p, ALL_ANSWERED), t, r)
  {
  }

  lemma SamePeriodEnd(b: Books, p: nat, t: Books, done: seq<nat>)
    requires Ready(b, p) && Reached(b, p, t, done)
    ensures p in t.periods && t.periods[p].ends == b.periods[p].ends
  {
  }
}
