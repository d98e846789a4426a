/** What whole runs of the backfill, crashed or complete, add up to. */
module BackfillRuns {
  import opened Wrappers
  import opened DocumentPaths
  import opened DocumentWorld
  import opened Backfill

  /** One attempt: the worlds it went through, up to its crash or its end. */
  datatype Attempt = Attempt(deleteSource: bool, history: seq<World>)

  function Last(history: seq<World>): World
    requires history != []
  {
    history[|history| - 1]
  }

  /** Every world that the attempt went through is intact and heads for one goal. */
  ghost predicate IsSettled(a: Attempt) {
    && a.history != []
    && KeepsDocuments(a.history)
    && forall i | 0 <= i < |a.history| ::
         Ready(a.history[i]) && SameGoal(a.history[0], a.history[i], a.deleteSource)
  }

  /**
   A run with any options, any failing calls and any other writers: no step of it makes a surviving intact
   document unreadable or changes its bytes. On a quiet table every step leaves each document a good copy, unless
   the run deletes beside a broken straggler that its filter exposes; over intact documents, whatever fails and
   wherever the run stops, it heads for one goal; and an open gate means the migration is finished for every row
   that the filter selects. When no call fails, dry or not, the gate opens exactly when it is finished, and the
   report counts the rows moved, the objects removed, the rows left, and the legacy objects left; handled are the keys
   that the run set out to migrate, without a limit all that a selected row has to leave. No copy is then left that no
   row points at.
   */
  method AnyRun(w: World, options: Options, isolated: bool, reliable: bool, lastId: nat)
    returns (end: World, report: Call<Summary>, ghost handled: set<string>, ghost history: seq<World>)
    requires Bounded(w) && w.nextId <= lastId
    requires options.deleteSource ==> options.apply
    ensures history != [] && history[0] == w && Last(history) == end
    ensures KeepsDocuments(history)
    ensures isolated && Segregated(w) && (options.deleteSource ==> NoBrokenStragglers(w, options.onlyCompany)) ==>
              forall i | 0 < i < |history| :: KeepsCopies(history[i - 1], history[i])
    ensures isolated && Ready(w) ==> IsSettled(Attempt(options.deleteSource, history))
    ensures isolated && Segregated(w) && report.Done? && report.value.gateOpen ==>
              forall id | id in end.rows && IsPlaced(end.rows[id]) && Matches(end.rows[id], options.onlyCompany) ::
                IsScoped(end.rows[id]) && LegacyKey(end.rows[id]) !in end.objects
    ensures reliable ==> report.Done?
    ensures isolated && reliable && Segregated(w) ==>
              && (report.value.gateOpen <==>
                  forall id | id in end.rows && IsPlaced(end.rows[id]) && Matches(end.rows[id], options.onlyCompany) ::
                    IsScoped(end.rows[id]) && LegacyKey(end.rows[id]) !in end.objects)
              && report.value.rowsMigrated == |Changed(w.rows, end.rows)|
              && report.value.legacyObjectsRemoved == |Gone(w.objects, end.objects)|
              && report.value.legacyRowsRemaining == |LeftRows(end, options.onlyCompany)|
              && report.value.legacyObjectsRemaining == |LeftObjects(end, handled, options.onlyCompany)|
              && (forall k | k in end.objects && k !in w.objects :: References(end, k))
              && (forall k | k in handled :: exists id | id in w.rows :: IsLeaving(w, id, k, options.onlyCompany))
              && (options.limit.None? ==>
                    forall id, k | id in w.rows && IsLeaving(w, id, k, options.onlyCompany) :: k in handled)
    ensures isolated && !options.apply ==> end == w
  {
    var run := new Run(w, options, isolated, reliable, lastId);
    report, handled := run.Execute();
    history := run.history;
    end := run.Now();
  }

  /**
   A complete --delete-source run, for one company or for all, loses the last good bytes of exactly the rows that
   were lost from the start.
   */
  method DeletingRun(w: World, onlyCompany: Option<CompanyId>) returns (end: World, ghost history: seq<World>)
    requires Bounded(w) && Segregated(w)
    ensures history != [] && history[0] == w && Last(history) == end && KeepsDocuments(history)
    ensures forall id | id in w.rows && Recoverable(w, id) :: Recoverable(end, id) <==> !IsLost(w, id, onlyCompany)
    ensures NoBrokenStragglers(w, onlyCompany) ==>
              forall id | id in w.rows && Recoverable(w, id) :: Recoverable(end, id)
  {
    var run := new Run(w, Options(true, true, onlyCompany, None), true, true, w.nextId);
    var report;
    ghost var handled;
    report, handled := run.Execute();
    history := run.history;
    end := run.Now();
    forall id | id in w.rows && Recoverable(w, id)
      ensures Recoverable(end, id) <==> !IsLost(w, id, onlyCompany)
      ensures NoBrokenStragglers(w, onlyCompany) ==> !IsLost(w, id, onlyCompany)
    {
      if IsLost(w, id, onlyCompany) {
        LostMeansStraggler(w, id, onlyCompany);
      }
    }
  }

  /** A run over the two rows of WorldWithAStraggler destroys the only good bytes of row 1. */
  method StragglerLosesItsLastCopy() returns (end: World)
    ensures Recoverable(WorldWithAStraggler(), 1) && !Recoverable(end, 1)
  {
    ghost var history;
    StragglerIsLost();
    end, history := DeletingRun(WorldWithAStraggler(), None);
  }

  /** For company b alone the run destroys the only good bytes of company a's row; for all companies it keeps them. */
  method FilterLosesALastCopy() returns (filtered: World, unfiltered: World)
    ensures Recoverable(WorldWithALeftover(), 1) && !Recoverable(filtered, 1) && Recoverable(unfiltered, 1)
  {
    ghost var history;
    LeftoverIsLostToAFilter();
    filtered, history := DeletingRun(WorldWithALeftover(), Some("b"));
    unfiltered, history := DeletingRun(WorldWithALeftover(), None);
  }

  /** A complete --apply or --apply --delete-source run over intact documents ends at rest. */
  method CompleteRun(w: World, deleteSource: bool) returns (end: World, ghost history: seq<World>)
    requires Bounded(w) && Ready(w)
    ensures IsSettled(Attempt(deleteSource, history)) && history[0] == w && Last(history) == end
    ensures AtRest(end, deleteSource)
  {
    var run := new Run(w, Options(true, deleteSource, None, None), true, true, w.nextId);
    var report;
    ghost var handled;
    report, handled := run.Execute();
    history := run.history;
    end := run.Now();
  }

  /** Each attempt starts from some world of the one before it: the point where that one crashed, or its end. */
  ghost predicate AreAttempts(attempts: seq<Attempt>, deleteSource: bool) {
    && (forall j | 0 <= j < |attempts| :: IsSettled(attempts[j]) && (attempts[j].deleteSource ==> deleteSource))
    && (forall j | 0 < j < |attempts| :: attempts[j].history[0] in attempts[j - 1].history)
  }

  lemma {:induction false} AttemptsShareTheGoal(attempts: seq<Attempt>, deleteSource: bool, j: nat, k: nat)
    requires AreAttempts(attempts, deleteSource) && j < |attempts| && k < |attempts[j].history|
    ensures SameGoal(attempts[0].history[0], attempts[j].history[k], deleteSource)
  {
    var here := attempts[j];
    assert SameGoal(here.history[0], here.history[k], here.deleteSource);
    if !here.deleteSource {
      SameGoalForEitherFlag(here.history[0], here.history[k], deleteSource);
    }
    if j > 0 {
      var i :| 0 <= i < |attempts[j - 1].history| && attempts[j - 1].history[i] == here.history[0];
      AttemptsShareTheGoal(attempts, deleteSource, j - 1, i);
      SameGoalIsTransitive(attempts[0].history[0], here.history[0], here.history[k], deleteSource);
    }
  }

  /**
   Crash convergence: any number of attempts, each crashing anywhere, followed by one that completes, leave the
   rows and objects of a single uninterrupted run. Attempts may have any limit, filter and failing calls, and may be
   --apply runs before a --delete-source one.
   */
  lemma CrashConvergence(attempts: seq<Attempt>, uninterrupted: Attempt)
    requires attempts != [] && AreAttempts(attempts, uninterrupted.deleteSource)
    requires IsSettled(uninterrupted) && uninterrupted.history[0] == attempts[0].history[0]
    requires AtRest(Last(attempts[|attempts| - 1].history), uninterrupted.deleteSource)
    requires AtRest(Last(uninterrupted.history), uninterrupted.deleteSource)
    ensures Last(attempts[|attempts| - 1].history).rows == Last(uninterrupted.history).rows
    ensures Last(attempts[|attempts| - 1].history).objects == Last(uninterrupted.history).objects
  {
    var last := |attempts| - 1;
    var del := uninterrupted.deleteSource;
    AttemptsShareTheGoal(attempts, del, last, |attempts[last].history| - 1);
    assert SameGoal(uninterrupted.history[0], Last(uninterrupted.history), del);
    SameGoalIsSymmetric(uninterrupted.history[0], Last(uninterrupted.history), del);
    SameGoalIsTransitive(
      Last(uninterrupted.history), uninterrupted.history[0], Last(attempts[last].history), del);
    RestIsUnique(Last(uninterrupted.history), Last(attempts[last].history), del);
  }

  /**
   "Run again to continue": runs with any limits, filters and failing calls, followed by one complete run, end where
   that run alone would have ended.
   */
  method RunAgainToContinue(w: World, tries: seq<Options>, deleteSource: bool) returns (end: World, direct: World)
    requires Bounded(w) && Ready(w)
    requires forall o | o in tries :: o.deleteSource ==> o.apply && deleteSource
    ensures end.rows == direct.rows && end.objects == direct.objects
    ensures AtRest(direct, deleteSource)
  {
    ghost var history, handled, last, once;
    var here := w;
    for n := 0 to |tries|
      invariant Bounded(here) && Ready(here) && SameGoal(w, here, deleteSource)
    {
      var options := tries[n];
      var next, report;
      ghost var before := here;
      next, report, handled, history := AnyRun(here, options, true, false, here.nextId);
      assert IsSettled(Attempt(options.deleteSource, history));
      GoalOfAttempt(Attempt(options.deleteSource, history), deleteSource);
      here := next;
      SameGoalIsTransitive(w, before, here, deleteSource);
    }
    end, last := CompleteRun(here, deleteSource);
    direct, once := CompleteRun(w, deleteSource);
    GoalOfAttempt(Attempt(deleteSource, last), deleteSource);
    GoalOfAttempt(Attempt(deleteSource, once), deleteSource);
    SameGoalIsTransitive(w, here, end, deleteSource);
    SameGoalIsSymmetric(w, end, deleteSource);
    SameGoalIsTransitive(end, w, direct, deleteSource);
    RestIsUnique(end, direct, deleteSource);
  }

  lemma GoalOfAttempt(a: Attempt, deleteSource: bool)
    requires IsSettled(a) && (a.deleteSource ==> deleteSource)
    ensures SameGoal(a.history[0], Last(a.history), deleteSource)
    ensures Bounded(Last(a.history)) && Ready(Last(a.history))
  {
    var end := Last(a.history);
    assert SameGoal(a.history[0], end, a.deleteSource) && Ready(end) && Bounded(end);
    if !a.deleteSource {
      SameGoalForEitherFlag(a.history[0], end, deleteSource);
    }
  }

  /** Running again after a complete run changes nothing. */
  method RerunChangesNothing(w: World, deleteSource: bool) returns (once: World, twice: World)
    requires Bounded(w) && Ready(w)
    ensures twice.rows == once.rows && twice.objects == once.objects
    ensures AtRest(once, deleteSource)
  {
    ghost var first, second;
    once, first := CompleteRun(w, deleteSource);
    assert Bounded(first[|first| - 1]) && Ready(first[|first| - 1]);
    twice, second := CompleteRun(once, deleteSource);
    assert SameGoal(second[0], second[|second| - 1], deleteSource);
    RestIsUnique(once, twice, deleteSource);
  }

  /** The documented workflow, --apply and days later --apply --delete-source, equals one direct run. */
  method TwoStepWorkflow(w: World) returns (stepwise: World, direct: World)
    requires Bounded(w) && Ready(w)
    ensures stepwise.rows == direct.rows && stepwise.objects == direct.objects
    ensures AtRest(direct, true)
  {
    ghost var h1, h2, h;
    var applied: World;
    applied, h1 := CompleteRun(w, false);
    assert Bounded(h1[|h1| - 1]) && Ready(h1[|h1| - 1]);
    stepwise, h2 := CompleteRun(applied, true);
    direct, h := CompleteRun(w, true);
    CrashConvergence([Attempt(false, h1), Attempt(true, h2)], Attempt(true, h));
  }
}
