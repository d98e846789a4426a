/**
 One run of the document storage backfill: copy, verify, repoint, then optionally
 delete. The table and the bucket are fields the run updates in place; before
 every store call other writers may act, and every call may fail, with or
 without having taken effect, or throw.
 */
module Backfill {
  import opened Wrappers
  import opened Grouping
  import opened DocumentPaths
  import opened DocumentWorld

  const PAGE_SIZE: nat := 500

  /** A call that may throw; `:-` passes the exception on. */
  datatype Call<+T> = Done(value: T) | Threw {
    predicate IsFailure() { Threw? }
    function PropagateFailure<U>(): Call<U>
      requires Threw?
    {
      Threw
    }
    function Extract(): T
      requires Done?
    {
      value
    }
  }

  /** A row as the run fetched it. */
  datatype Doc = Doc(id: nat, row: Row)

  datatype Step =
    | DownloadSource | UploadCopy | VerifyReadable | VerifyHash | UpdatePointer
    | SweepVerifyReadable | SweepDownloadLegacy | SweepVerifyHash | Unexpected

  datatype Failure = Failure(documentId: nat, storagePath: string, step: Step)

  datatype TargetState = TargetState(targetPath: string, copyHash: Digest, uploadedThisRun: bool, repointed: nat)
  datatype Outcome = Outcome(migratedRows: nat, failedRows: nat, sourceRemoved: bool)
  datatype SweepResult = SweepResult(keysWithLeftovers: nat, objectsRemoved: nat)

  /** limit is None for no limit. */
  datatype Options = Options(apply: bool, deleteSource: bool, onlyCompany: Option<CompanyId>, limit: Option<nat>)

  datatype Summary = Summary(
    rowsMigrated: nat, legacyObjectsRemoved: nat, legacyRowsRemaining: int, legacyObjectsRemaining: int,
    gateOpen: bool)

  /** What becomes of one call to the stores. */
  datatype Fate = Succeeds | FailsBefore | FailsAfter | ThrowsBefore | ThrowsAfter {
    predicate TakesEffect() { Succeeds? || FailsAfter? || ThrowsAfter? }
  }

  /** The rows below n that the query selects, in table order. */
  function Listing(rows: map<nat, Row>, onlyCompany: Option<CompanyId>, n: nat): seq<Doc> {
    if n == 0 then []
    else
      Listing(rows, onlyCompany, n - 1) +
      (if n - 1 in rows && Matches(rows[n - 1], onlyCompany) then [Doc(n - 1, rows[n - 1])] else [])
  }

  lemma {:induction false} ListingMembers(rows: map<nat, Row>, onlyCompany: Option<CompanyId>, n: nat)
    ensures forall d :: d in Listing(rows, onlyCompany, n) <==>
              d.id < n && d.id in rows && rows[d.id] == d.row && Matches(d.row, onlyCompany)
    ensures |Listing(rows, onlyCompany, n)| <= n
  {
    if n > 0 {
      ListingMembers(rows, onlyCompany, n - 1);
    }
  }

  function Page(listing: seq<Doc>, from: nat): seq<Doc> {
    if from >= |listing| then []
    else if from + PAGE_SIZE <= |listing| then listing[from..from + PAGE_SIZE]
    else listing[from..]
  }

  lemma PageMembers(rows: map<nat, Row>, onlyCompany: Option<CompanyId>, n: nat, from: nat)
    ensures forall d | d in Page(Listing(rows, onlyCompany, n), from) ::
              d.id < n && d.id in rows && rows[d.id] == d.row && Matches(d.row, onlyCompany)
  {
    ListingMembers(rows, onlyCompany, n);
    assert forall d | d in Page(Listing(rows, onlyCompany, n), from) :: d in Listing(rows, onlyCompany, n);
  }

  function CompanyOf(d: Doc): Option<CompanyId> {
    d.row.company
  }

  function PathOf(d: Doc): Option<string> {
    d.row.path
  }

  /** How the backfill places a row: what it has to do with it. */
  datatype Placement = ScopedRow | CandidateRow | UnmappedRow | Pathless

  function PlacementOf(row: Row): Placement {
    if row.path.GetOr("") == "" then Pathless
    else if IsScoped(row) then ScopedRow
    else if IsCandidate(row) then CandidateRow
    else UnmappedRow
  }

  function Those(docs: seq<Doc>, p: Placement): seq<Doc> {
    if docs == [] then []
    else Those(docs[..|docs| - 1], p) + (if PlacementOf(docs[|docs| - 1].row) == p then [docs[|docs| - 1]] else [])
  }

  lemma {:induction false} ThoseOf(docs: seq<Doc>, p: Placement)
    ensures forall d :: d in Those(docs, p) <==> d in docs && PlacementOf(d.row) == p
  {
    hide PlacementOf;
    if docs != [] {
      var init, last := docs[..|docs| - 1], docs[|docs| - 1];
      ThoseOf(init, p);
      assert forall d :: d in docs <==> d in init || d == last by {
        assert docs == init + [last];
      }
    }
  }

  lemma {:induction false} ThoseCount(docs: seq<Doc>)
    ensures |Those(docs, ScopedRow)| + |Those(docs, CandidateRow)| + |Those(docs, UnmappedRow)|
              + |Those(docs, Pathless)| == |docs|
  {
    hide PlacementOf;
    if docs != [] {
      ThoseCount(docs[..|docs| - 1]);
    }
  }

  lemma PlacementIs(row: Row)
    ensures PlacementOf(row) == ScopedRow <==> IsScoped(row)
    ensures PlacementOf(row) == CandidateRow <==> IsCandidate(row)
    ensures PlacementOf(row) == UnmappedRow <==> row.path.GetOr("") != "" && !IsPlaced(row)
  {
  }

  /** Each row with a path is in the one list of its placement. */
  lemma ThoseMembers(docs: seq<Doc>)
    ensures forall d :: d in Those(docs, ScopedRow) <==> d in docs && IsScoped(d.row)
    ensures forall d :: d in Those(docs, CandidateRow) <==> d in docs && IsCandidate(d.row)
    ensures forall d :: d in Those(docs, UnmappedRow) <==> d in docs && d.row.path.GetOr("") != "" && !IsPlaced(d.row)
    ensures |Those(docs, ScopedRow)| + |Those(docs, CandidateRow)| + |Those(docs, UnmappedRow)|
              + |Those(docs, Pathless)| == |docs|
  {
    hide Those, PlacementOf, IsScoped, IsCandidate;
    ThoseOf(docs, ScopedRow);
    ThoseOf(docs, CandidateRow);
    ThoseOf(docs, UnmappedRow);
    ThoseCount(docs);
    forall d: Doc {
      PlacementIs(d.row);
    }
  }

  function Ids(docs: seq<Doc>): set<nat> {
    set d | d in docs :: d.id
  }

  function KeysOf(groups: seq<Group<string, Doc>>): set<string> {
    set g | g in groups :: g.key
  }

  ghost predicate Ascending(docs: seq<Doc>) {
    forall i, j | 0 <= i < j < |docs| :: docs[i].id < docs[j].id
  }

  lemma {:induction false} ListingAscends(rows: map<nat, Row>, onlyCompany: Option<CompanyId>, n: nat)
    ensures Ascending(Listing(rows, onlyCompany, n))
  {
    if n > 0 {
      ListingAscends(rows, onlyCompany, n - 1);
      ListingMembers(rows, onlyCompany, n - 1);
      var init := Listing(rows, onlyCompany, n - 1);
      assert forall i | 0 <= i < |init| :: init[i] in init;
    }
  }

  lemma {:induction false} ThoseAscend(docs: seq<Doc>, p: Placement)
    requires Ascending(docs)
    ensures Ascending(Those(docs, p))
  {
    hide PlacementOf;
    if docs != [] {
      var init := docs[..|docs| - 1];
      ThoseAscend(init, p);
      ThoseOf(init, p);
      assert forall i | 0 <= i < |Those(init, p)| :: Those(init, p)[i] in init;
    }
  }

  lemma {:induction false} ItemsAscend(docs: seq<Doc>, key: string)
    requires Ascending(docs)
    ensures Ascending(ItemsOf(docs, PathOf, key))
  {
    if docs != [] {
      var init := docs[..|docs| - 1];
      ItemsAscend(init, key);
      ItemsOfMembers(init, PathOf, key);
      assert forall i | 0 <= i < |ItemsOf(init, PathOf, key)| :: ItemsOf(init, PathOf, key)[i] in init;
    }
  }

  lemma {:induction false} AscendingIds(docs: seq<Doc>)
    requires Ascending(docs)
    ensures |Ids(docs)| == |docs|
  {
    if docs != [] {
      var n := |docs| - 1;
      AscendingIds(docs[..n]);
      assert docs == docs[..n] + [docs[n]];
      assert Ids(docs) == Ids(docs[..n]) + {docs[n].id};
      assert docs[n].id !in Ids(docs[..n]);
    }
  }

  predicate IsTracked(snapshot: Row, row: Row) {
    row == snapshot || (IsCandidate(snapshot) && row == Moved(snapshot))
  }

  /** The state of a copied and readable target for the rows of one company. */
  ghost predicate IsCopied(w: World, source: string, company: CompanyId, t: TargetState) {
    && CompanyScopedPath(source, company) == Some(t.targetPath)
    && t.targetPath in w.objects
    && t.copyHash == Sha256(w.objects[t.targetPath])
    && (t.uploadedThisRun ==> source in w.objects && t.copyHash == Sha256(w.objects[source]))
  }

  /** The copies made for the rows of a group: one verified target per company. */
  ghost predicate AreCopies(w: World, source: string, docs: seq<Doc>, targets: map<CompanyId, TargetState>) {
    forall company | company in targets ::
      && IsCopied(w, source, company, targets[company])
      && exists d | d in docs :: d.row.company == Some(company)
  }

  lemma CopiesStay(a: World, b: World, ids: set<nat>, source: string, docs: seq<Doc>,
                   targets: map<CompanyId, TargetState>)
    requires AreCopies(a, source, docs, targets) && Evolves(a, b, ids, {})
    ensures AreCopies(b, source, docs, targets)
  {
  }

  lemma SourceIsNoTarget(w: World, source: string, docs: seq<Doc>, targets: map<CompanyId, TargetState>)
    requires AreCopies(w, source, docs, targets)
    ensures source !in TargetPaths(targets)
  {
    forall company | company in targets
      ensures targets[company].targetPath != source
    {
      assert IsCopied(w, source, company, targets[company]);
      ScopeThenDerive(source, company);
    }
  }

  lemma EachIsCopied(w: World, source: string, docs: seq<Doc>, targets: map<CompanyId, TargetState>, company: CompanyId)
    requires AreCopies(w, source, docs, targets) && company in targets
    ensures IsCopied(w, source, company, targets[company])
  {
  }

  function TargetPaths(targets: map<CompanyId, TargetState>): set<string> {
    set company | company in targets :: targets[company].targetPath
  }

  lemma CopiesAreDistinct(w: World, source: string, docs: seq<Doc>, targets: map<CompanyId, TargetState>,
                          company: CompanyId)
    requires AreCopies(w, source, docs, targets) && company in targets
    ensures forall other | other in targets && other != company ::
              targets[other].targetPath != targets[company].targetPath
  {
    assert IsCopied(w, source, company, targets[company]);
    forall other | other in targets
      ensures other != company ==> targets[other].targetPath != targets[company].targetPath
    {
      assert IsCopied(w, source, other, targets[other]);
      if targets[other].targetPath == targets[company].targetPath {
        ScopedPathsAreInjective(source, company, source, other);
      }
    }
  }

  /** The keys that the rows of a group are to move to. */
  function TargetsOf(docs: seq<Doc>): set<string> {
    set d | d in docs && IsCandidate(d.row) :: Target(d.row)
  }

  lemma CopiesGrowFromNone(w: World, source: string, docs: seq<Doc>)
    ensures AreCopies(w, source, docs, map[])
  {
  }

  lemma CopiesGrow(w: World, source: string, docs: seq<Doc>, targets: map<CompanyId, TargetState>,
                   company: CompanyId, t: TargetState)
    requires AreCopies(w, source, docs, targets)
    requires IsCopied(w, source, company, t) && exists d | d in docs :: d.row.company == Some(company)
    ensures AreCopies(w, source, docs, targets[company := t])
  {
  }

  lemma CountedCopiesAreCopies(w: World, source: string, docs: seq<Doc>, targets: map<CompanyId, TargetState>,
                               company: CompanyId)
    requires AreCopies(w, source, docs, targets) && company in targets
    ensures var t := targets[company];
            AreCopies(w, source, docs, targets[company := t.(repointed := t.repointed + 1)])
  {
    CopiesGrow(w, source, docs, targets, company, targets[company].(repointed := targets[company].repointed + 1));
  }

  /** The row's company has a copy. */
  predicate IsServed(d: Doc, targets: map<CompanyId, TargetState>) {
    d.row.company.Some? && d.row.company.value in targets
  }

  /** The rows of companies for which no copy could be made. */
  function Unserved(docs: seq<Doc>, targets: map<CompanyId, TargetState>): nat {
    if docs == [] then 0
    else
      var last := docs[|docs| - 1];
      Unserved(docs[..|docs| - 1], targets) + if IsServed(last, targets) then 0 else 1
  }

  /** The same, company by company. */
  function UnservedOf(docs: seq<Doc>, companies: seq<Group<CompanyId, Doc>>, n: nat,
                      targets: map<CompanyId, TargetState>): nat
    requires n <= |companies|
  {
    if n == 0 then 0
    else
      var company := companies[n - 1].key;
      UnservedOf(docs, companies, n - 1, targets)
      + if company in targets then 0 else |ItemsOf(docs, CompanyOf, company)|
  }

  ghost predicate AreApart(companies: seq<Group<CompanyId, Doc>>) {
    forall i, j | 0 <= i < j < |companies| :: companies[i].key != companies[j].key
  }

  lemma {:induction false} OneMoreTarget(docs: seq<Doc>, companies: seq<Group<CompanyId, Doc>>, n: nat,
                                         targets: map<CompanyId, TargetState>, company: CompanyId, t: TargetState)
    requires n <= |companies| && forall j | 0 <= j < n :: companies[j].key != company
    ensures UnservedOf(docs, companies, n, targets[company := t]) == UnservedOf(docs, companies, n, targets)
  {
    if n > 0 {
      OneMoreTarget(docs, companies, n - 1, targets, company, t);
    }
  }

  /** One more row counts for the one company it belongs to. */
  lemma {:induction false} OneMoreRow(docs: seq<Doc>, doc: Doc, companies: seq<Group<CompanyId, Doc>>, n: nat,
                                      targets: map<CompanyId, TargetState>)
    requires n <= |companies| && AreApart(companies) && doc.row.company.Some?
    ensures UnservedOf(docs + [doc], companies, n, targets) ==
              UnservedOf(docs, companies, n, targets)
              + if doc.row.company.value !in targets
                   && exists j :: 0 <= j < n && companies[j].key == doc.row.company.value
                then 1 else 0
  {
    hide ItemsOf;
    if n > 0 {
      OneMoreRow(docs, doc, companies, n - 1, targets);
      ItemsOfOneMore(docs, doc, CompanyOf, companies[n - 1].key);
    }
  }

  lemma {:induction false} UnservedByCompany(docs: seq<Doc>, companies: seq<Group<CompanyId, Doc>>,
                                             targets: map<CompanyId, TargetState>)
    requires AreApart(companies)
    requires forall d | d in docs ::
               d.row.company.Some? && exists j :: 0 <= j < |companies| && companies[j].key == d.row.company.value
    ensures UnservedOf(docs, companies, |companies|, targets) == Unserved(docs, targets)
  {
    if docs == [] {
      NoRows(companies, |companies|, targets);
    } else {
      var init, last := docs[..|docs| - 1], docs[|docs| - 1];
      assert docs == init + [last];
      UnservedByCompany(init, companies, targets);
      OneMoreRow(init, last, companies, |companies|, targets);
    }
  }

  lemma {:induction false} NoRows(companies: seq<Group<CompanyId, Doc>>, n: nat, targets: map<CompanyId, TargetState>)
    requires n <= |companies|
    ensures UnservedOf([], companies, n, targets) == 0
  {
    if n > 0 {
      NoRows(companies, n - 1, targets);
    }
  }

  class Run {
    const options: Options
    /** No other writer acts during the run. */
    const isolated: bool
    /** No call fails. */
    const reliable: bool
    /** Ids stay below this bound: only finitely many documents are uploaded meanwhile. */
    const lastId: nat

    var rows: map<nat, Row>
    var objects: map<string, Bytes>
    var nextId: nat
    var failures: seq<Failure>

    /** Isolated, and user ids in keys are never company ids. */
    ghost const keyed: bool
    /** Keyed; if it deletes, also without broken scoped rows that its filter exposes. */
    ghost const covered: bool
    /** Isolated, on a world whose documents are all intact. */
    ghost const steady: bool
    /** Keyed, reliable and unlimited --apply, with any filter. */
    ghost const complete: bool
    /** Steady, complete and unfiltered. */
    ghost const settled: bool
    ghost var history: seq<World>
    ghost var fetched: map<nat, Row>

    function Now(): World
      reads this`rows, this`objects, this`nextId
    {
      World(rows, objects, nextId)
    }

    ghost predicate Modes() {
      && (options.deleteSource ==> options.apply)
      && (keyed ==> isolated)
      && (covered ==> keyed)
      && (steady ==> keyed)
      && (complete ==> keyed && reliable && options.apply && options.limit.None?)
      && (settled <==> steady && complete && options.onlyCompany.None?)
    }

    ghost predicate Recorded()
      reads this`history
    {
      && |history| > 0
      && KeepsDocuments(history)
      && (covered && options.deleteSource ==> NoBrokenStragglers(history[0], options.onlyCompany))
      && (covered ==> forall i | 0 < i < |history| :: KeepsCopies(history[i - 1], history[i]))
      && (steady ==> forall i | 0 <= i < |history| ::
            Ready(history[i]) && SameGoal(history[0], history[i], options.deleteSource))
    }

    /** Every fetched row is as it was fetched, or it was repointed and is served from its new key. */
    ghost predicate TrackedAt(w: World)
      reads this`fetched
    {
      forall id | id in fetched ::
        && id < w.nextId && Matches(fetched[id], options.onlyCompany)
        && (id in w.rows ==>
              IsTracked(fetched[id], w.rows[id]) && (w.rows[id] != fetched[id] ==> Content(w, id).Some?))
        && (isolated ==> id in w.rows)
    }

    ghost predicate Tracking()
      reads this`rows, this`objects, this`nextId, this`fetched
    {
      TrackedAt(Now())
    }

    /**
     The bytes are those that the key of a fetched row held when the run began, and that row is to move to the key.
     */
    ghost predicate IsDueAtStart(start: World, key: string, bytes: Bytes)
      reads this`fetched
    {
      exists id | id in fetched ::
        && IsCandidate(fetched[id]) && Target(fetched[id]) == key
        && fetched[id].path.value in start.objects && start.objects[fetched[id].path.value] == bytes
    }

    /** On a quiet table a row is as it was at the start, or it was moved. */
    ghost predicate RowsRooted(start: World, w: World)
      reads this`fetched
    {
      && w.rows.Keys == start.rows.Keys
      && (forall id | id in fetched :: id in start.rows && fetched[id] == start.rows[id])
      && (forall id | id in w.rows ::
            || w.rows[id] == start.rows[id]
            || (id in fetched && IsCandidate(fetched[id]) && w.rows[id] == Moved(fetched[id])))
    }

    /** On a quiet table an object is as it was at the start, or it is a copy this run made; no target is removed. */
    ghost predicate ObjectsRooted(start: World, w: World)
      reads this`fetched
    {
      && (forall k | k in w.objects ::
            if k in start.objects then w.objects[k] == start.objects[k] else IsDueAtStart(start, k, w.objects[k]))
      && (forall k | k in start.objects && IsTargetKey(k) :: k in w.objects)
    }

    ghost predicate RootedAt(start: World, w: World)
      reads this`fetched
    {
      && (isolated ==> RowsRooted(start, w))
      && (keyed ==> ObjectsRooted(start, w))
    }

    ghost predicate Valid()
      reads this
    {
      && Modes()
      && nextId <= lastId && Bounded(Now())
      && |history| > 0 && history[|history| - 1] == Now()
      && (keyed ==> Segregated(Now()))
      && Recorded()
      && Tracking()
      && RootedAt(Start(), Now())
    }

    ghost function Start(): World
      reads this`history
      requires |history| > 0
    {
      history[0]
    }

    ghost predicate Known(d: Doc)
      reads this`fetched
    {
      d.id in fetched && fetched[d.id] == d.row
    }

    constructor (w: World, options: Options, isolated: bool, reliable: bool, lastId: nat)
      requires Bounded(w) && w.nextId <= lastId
      requires options.deleteSource ==> options.apply
      ensures Valid() && fresh(this)
      ensures Now() == w && history == [w] && fetched == map[] && failures == []
      ensures this.options == options && this.isolated == isolated && this.reliable == reliable
      ensures keyed <==> isolated && Segregated(w)
      ensures covered <==> keyed && (options.deleteSource ==> NoBrokenStragglers(w, options.onlyCompany))
      ensures steady <==> isolated && Ready(w)
      ensures complete <==> keyed && reliable && options.apply && options.limit.None?
      ensures settled <==> steady && complete && options.onlyCompany.None?
    {
      this.options, this.isolated, this.reliable, this.lastId := options, isolated, reliable, lastId;
      rows, objects, nextId, failures := w.rows, w.objects, w.nextId, [];
      keyed := isolated && Segregated(w);
      covered := isolated && Segregated(w) && (options.deleteSource ==> NoBrokenStragglers(w, options.onlyCompany));
      steady := isolated && Ready(w);
      complete := isolated && Segregated(w) && reliable && options.apply && options.limit.None?;
      settled := isolated && Ready(w) && reliable && options.apply && options.limit.None? && options.onlyCompany.None?;
      history := [w];
      fetched := map[];
    }

    // ---------------------------------------------------------- the stores

    /** Commits one change to the stores and records the world it leads to. */
    method Commit(w: World)
      requires Valid()
      requires NoLoss(Now(), w) && Bounded(w) && w.nextId <= lastId
      requires keyed ==> Segregated(w)
      requires covered ==> KeepsCopies(Now(), w)
      requires steady ==> Ready(w) && SameGoal(Now(), w, options.deleteSource)
      requires TrackedAt(w) && RootedAt(Start(), w)
      modifies this`rows, this`objects, this`nextId, this`history
      ensures Valid() && Now() == w && Start() == old(Start())
      ensures old(history) <= history
    {
      hide Run.TrackedAt, Run.RootedAt, Segregated, NoBrokenStragglers, NoLoss, KeepsCopies, Ready, SameGoal;
      if steady {
        GoalGoesOn(w);
      }
      rows, objects, nextId := w.rows, w.objects, w.nextId;
      history := history + [w];
    }

    lemma GoalGoesOn(w: World)
      requires Valid() && steady && SameGoal(Now(), w, options.deleteSource)
      ensures SameGoal(Start(), w, options.deleteSource)
    {
      hide Run.TrackedAt, Run.RootedAt, Segregated, SameGoal;
      assert SameGoal(history[0], history[|history| - 1], options.deleteSource);
      SameGoalIsTransitive(Start(), Now(), w, options.deleteSource);
    }

    /** Other writers act: rows vanish, fresh scoped documents arrive. */
    method Interference()
      requires Valid()
      modifies this`rows, this`objects, this`nextId, this`history
      ensures Valid() && Start() == old(Start()) && old(history) <= history
      ensures Rely(old(Now()), Now())
      ensures isolated ==> Now() == old(Now())
    {
      var w: World := *;
      if !isolated && Rely(Now(), w) && w.nextId <= lastId {
        RelyKeepsDocuments(Now(), w);
        assert TrackedAt(w) by {
          RelyKeepsTracking(w);
        }
        Commit(w);
      }
    }

    lemma RelyKeepsTracking(w: World)
      requires Valid() && !isolated && Rely(Now(), w) && NoLoss(Now(), w)
      ensures TrackedAt(w)
    {
      forall id | id in fetched && id in w.rows
        ensures w.rows[id] != fetched[id] ==> Content(w, id).Some?
      {
        assert id in rows && w.rows[id] == rows[id];
        assert KeepsRow(Now(), w, id);
      }
    }

    method DrawFate() returns (fate: Fate)
      ensures reliable ==> fate == Succeeds
    {
      fate := *;
      if reliable {
        fate := Succeeds;
      }
    }

    /** Done(None) is an error reply or a missing object. */
    method Download(key: string) returns (c: Call<Option<Bytes>>)
      requires Valid()
      modifies this`rows, this`objects, this`nextId, this`history
      ensures Valid() && Start() == old(Start()) && old(history) <= history
      ensures Rely(old(Now()), Now()) && (isolated ==> Now() == old(Now()))
      ensures c.Done? && c.value.Some? ==> key in objects && objects[key] == c.value.value
      ensures reliable ==> c.Done? && (c.value.Some? <==> key in objects)
    {
      Interference();
      var fate := DrawFate();
      if fate.ThrowsBefore? || fate.ThrowsAfter? {
        return Threw;
      }
      c := Done(if fate.Succeeds? && key in objects then Some(objects[key]) else None);
    }

    /** An error while listing is raised, never read as "missing". */
    method ObjectExists(key: string) returns (c: Call<bool>)
      requires Valid()
      modifies this`rows, this`objects, this`nextId, this`history
      ensures Valid() && Start() == old(Start()) && old(history) <= history
      ensures Rely(old(Now()), Now()) && (isolated ==> Now() == old(Now()))
      ensures c.Done? ==> (c.value <==> key in objects)
      ensures reliable ==> c.Done?
    {
      Interference();
      var fate := DrawFate();
      c := if fate.Succeeds? then Done(key in objects) else Threw;
    }

    method PathStillReferenced(key: string) returns (c: Call<bool>)
      requires Valid()
      modifies this`rows, this`objects, this`nextId, this`history
      ensures Valid() && Start() == old(Start()) && old(history) <= history
      ensures Rely(old(Now()), Now()) && (isolated ==> Now() == old(Now()))
      ensures c.Done? ==> (c.value <==> References(Now(), key))
      ensures reliable ==> c.Done?
    {
      Interference();
      var fate := DrawFate();
      c := if fate.Succeeds? then Done(References(Now(), key)) else Threw;
    }

    /** Some fetched row is to be served from the key once it holds the bytes of the row's source. */
    ghost predicate IsDue(key: string, bytes: Bytes)
      reads this`objects, this`fetched
    {
      exists id | id in fetched ::
        && IsCandidate(fetched[id]) && Target(fetched[id]) == key
        && fetched[id].path.value in objects && objects[fetched[id].path.value] == bytes
    }

    /** Upload without upsert: a conflict with an existing object is an error reply. */
    method Upload(key: string, bytes: Bytes) returns (c: Call<bool>)
      requires Valid() && IsDue(key, bytes)
      modifies this`rows, this`objects, this`nextId, this`history
      ensures Valid() && Start() == old(Start()) && old(history) <= history
      ensures Rely(old(Now()), Now())
      ensures isolated ==> rows == old(rows)
      ensures isolated ==> objects == old(objects) || objects == old(objects)[key := bytes]
      ensures c == Done(true) ==> key in objects && objects[key] == bytes
      ensures reliable && isolated && key !in old(objects) ==> c == Done(true)
    {
      hide Run.Recorded, Run.TrackedAt, Run.RootedAt, Segregated, KeepsCopies, NoLoss;
      ghost var before := Now();
      ghost var id :| id in fetched && IsCandidate(fetched[id]) && Target(fetched[id]) == key
                      && fetched[id].path.value in objects && objects[fetched[id].path.value] == bytes;
      Interference();
      RelyKeepsObject(before, Now(), fetched[id].path.value);
      var fate := DrawFate();
      if key in objects {
        return if fate.ThrowsBefore? || fate.ThrowsAfter? then Threw else Done(false);
      }
      if fate.TakesEffect() {
        var w := Now().(objects := objects[key := bytes]);
        UploadIsSafe(key, bytes, w);
        Commit(w);
      }
      c := match fate
        case Succeeds => Done(true)
        case FailsBefore => Done(false)
        case FailsAfter => Done(false)
        case ThrowsBefore => Threw
        case ThrowsAfter => Threw;
    }

    lemma UploadIsSafe(key: string, bytes: Bytes, w: World)
      requires Valid() && IsDue(key, bytes)
      requires key !in objects && w == Now().(objects := objects[key := bytes])
      ensures NoLoss(Now(), w) && Bounded(w) && Rely(Now(), w) && KeepsCopies(Now(), w)
      ensures keyed ==> Segregated(w)
      ensures steady ==> Ready(w) && SameGoal(Now(), w, options.deleteSource)
      ensures TrackedAt(w) && RootedAt(Start(), w)
    {
      hide Run.Recorded;
      RelyKeepsDocuments(Now(), w);
      UploadKeepsGoing(key, bytes, w);
      UploadKeepsRoot(key, bytes, w);
    }

    lemma UploadKeepsGoing(key: string, bytes: Bytes, w: World)
      requires Valid() && IsDue(key, bytes)
      requires key !in objects && w == Now().(objects := objects[key := bytes])
      ensures steady ==> Ready(w) && SameGoal(Now(), w, options.deleteSource)
    {
      hide Run.RootedAt, SameGoal;
      if steady {
        var id :| id in fetched && IsCandidate(fetched[id]) && Target(fetched[id]) == key
                  && fetched[id].path.value in objects && objects[fetched[id].path.value] == bytes;
        MovedIsScoped(fetched[id]);
        assert rows[id] != fetched[id] ==> Content(Now(), id).Some?;
        ReadyNow();
        UploadKeepsGoal(Now(), w, id, options.deleteSource);
      }
    }

    lemma ReadyNow()
      requires Valid() && steady
      ensures Ready(Now()) && SameGoal(Start(), Now(), options.deleteSource)
    {
      hide Run.TrackedAt, Run.RootedAt, Segregated, SameGoal, Ready;
      assert Ready(history[|history| - 1]) && SameGoal(history[0], history[|history| - 1], options.deleteSource);
    }

    lemma UploadKeepsRoot(key: string, bytes: Bytes, w: World)
      requires Valid() && IsDue(key, bytes)
      requires key !in objects && w == Now().(objects := objects[key := bytes])
      ensures TrackedAt(w) && RootedAt(Start(), w)
    {
      hide Run.Recorded, Run.TrackedAt, Run.RootedAt, Segregated;
      SameRowsTracked(w);
      if keyed {
        var id :| id in fetched && IsCandidate(fetched[id]) && Target(fetched[id]) == key
                  && fetched[id].path.value in objects && objects[fetched[id].path.value] == bytes;
        LegacyObjectIsOriginal(id);
        assert IsDueAtStart(Start(), key, bytes);
        assert IsTargetKey(key);
      }
      UploadRooted(key, bytes, w);
    }

    lemma SameRowsTracked(w: World)
      requires Tracking() && w.rows == rows && w.nextId == nextId
      requires forall id | id in rows && Content(Now(), id).Some? :: Content(w, id).Some?
      ensures TrackedAt(w)
    {
      hide Content;
    }

    lemma UploadRooted(key: string, bytes: Bytes, w: World)
      requires |history| > 0 && RootedAt(Start(), Now())
      requires keyed ==> IsDueAtStart(Start(), key, bytes) && IsTargetKey(key)
      requires key !in objects && w == Now().(objects := objects[key := bytes])
      ensures RootedAt(Start(), w)
    {
      hide Run.IsDueAtStart, Run.IsTargetKey;
    }

    /** The object at a fetched row's old key was there from the start, with the same bytes. */
    lemma LegacyObjectIsOriginal(id: nat)
      requires Valid() && keyed && id in fetched && IsPlaced(fetched[id]) && LegacyKey(fetched[id]) in objects
      ensures var key := LegacyKey(fetched[id]); key in Start().objects && Start().objects[key] == objects[key]
    {
      hide Run.Recorded;
      var key := LegacyKey(fetched[id]);
      if IsCandidate(fetched[id]) {
        MovedIsScoped(fetched[id]);
      }
      assert id in rows && IsPlaced(rows[id]) && LegacyKey(rows[id]) == key;
      if key !in Start().objects {
        assert IsDueAtStart(Start(), key, objects[key]);
        assert IsTargetKey(key);
        TargetIsNoLegacyKey(key);
      }
    }

    /** The copy at the key carries the bytes the snapshot row stands for. */
    ghost predicate Vouched(snapshot: Row, key: string)
      reads this`objects
    {
      && key in objects
      && match snapshot.hash
         case Some(h) => Sha256(objects[key]) == h
         case None =>
           snapshot.path.Some? && snapshot.path.value in objects && objects[snapshot.path.value] == objects[key]
    }

    /** UPDATE storage_path WHERE id = ..., returning the number of rows it matched; Done(None) is an error reply. */
    method UpdatePath(id: nat, path: string) returns (c: Call<Option<nat>>)
      requires Valid()
      requires id in fetched && IsCandidate(fetched[id]) && path == Target(fetched[id])
      requires Vouched(fetched[id], path)
      modifies this`rows, this`objects, this`nextId, this`history
      ensures Valid() && Start() == old(Start()) && old(history) <= history
      ensures Evolves(old(Now()), Now(), {id}, {})
      ensures isolated ==> rows.Keys == old(rows.Keys) && objects == old(objects)
      ensures c.Done? && c.value.Some? ==>
                c.value.value == (if id in rows then 1 else 0) && (id in rows ==> rows[id] == Moved(fetched[id]))
      ensures reliable ==> c.Done? && c.value.Some?
    {
      hide Run.Recorded, Run.TrackedAt, Run.RootedAt, Segregated, KeepsCopies, NoLoss, IsCandidate;
      Interference();
      var fate := DrawFate();
      if fate.TakesEffect() && id in rows {
        var w := Now().(rows := rows[id := rows[id].(path := Some(path))]);
        UpdateIsSafe(id, path, w);
        Commit(w);
      }
      c := match fate
        case Succeeds => Done(Some(if id in rows then 1 else 0))
        case FailsBefore => Done(None)
        case FailsAfter => Done(None)
        case ThrowsBefore => Threw
        case ThrowsAfter => Threw;
    }

    /** A row is repointed once; updating it again changes nothing. */
    lemma UpdateIsSafe(id: nat, path: string, w: World)
      requires Valid() && id in rows
      requires id in fetched && IsCandidate(fetched[id]) && path == Target(fetched[id]) && Vouched(fetched[id], path)
      requires w == Now().(rows := rows[id := rows[id].(path := Some(path))])
      ensures NoLoss(Now(), w) && Bounded(w) && KeepsCopies(Now(), w)
      ensures keyed ==> Segregated(w)
      ensures steady ==> Ready(w) && SameGoal(Now(), w, options.deleteSource)
      ensures TrackedAt(w) && RootedAt(Start(), w)
      ensures w.rows[id] == Moved(fetched[id]) && Evolves(Now(), w, {id}, {})
    {
      hide Run.Recorded, Run.RootedAt, Segregated, KeepsCopies, NoLoss, Ready, SameGoal, Content, Run.Vouched;
      if rows[id] == fetched[id] {
        RepointIsSafe(id, w);
      } else {
        assert w == Now();
        StandingStillIsSafe();
      }
    }

    /** What Commit asks for holds of the world as it is. */
    lemma StandingStillIsSafe()
      requires Valid()
      ensures NoLoss(Now(), Now()) && KeepsCopies(Now(), Now())
      ensures steady ==> Ready(Now()) && SameGoal(Now(), Now(), options.deleteSource)
    {
      if steady {
        ReadyNow();
      }
    }

    lemma RepointIsSafe(id: nat, w: World)
      requires Valid()
      requires id in fetched && IsCandidate(fetched[id]) && id in rows && rows[id] == fetched[id]
      requires Vouched(fetched[id], Target(fetched[id]))
      requires w == Now().(rows := rows[id := Moved(rows[id])])
      ensures NoLoss(Now(), w) && Bounded(w) && KeepsCopies(Now(), w)
      ensures keyed ==> Segregated(w)
      ensures steady ==> Ready(w) && SameGoal(Now(), w, options.deleteSource)
      ensures TrackedAt(w) && RootedAt(Start(), w)
    {
      hide Run.Recorded, SameGoal;
      MovedIsScoped(rows[id]);
      RepointKeepsDocuments(Now(), w, id);
      RepointKeepsCopies(Now(), w, id);
      RepointKeepsRoot(id, w);
      if steady {
        ReadyNow();
        assert Content(Now(), id).Some?;
        RepointKeepsGoal(Now(), w, id, options.deleteSource);
      }
    }

    lemma RepointKeepsRoot(id: nat, w: World)
      requires Valid()
      requires id in fetched && IsCandidate(fetched[id]) && id in rows && rows[id] == fetched[id]
      requires Vouched(fetched[id], Target(fetched[id]))
      requires w == Now().(rows := rows[id := Moved(rows[id])])
      ensures TrackedAt(w) && RootedAt(Start(), w)
    {
      hide Run.Recorded, Segregated;
      assert Content(w, id).Some?;
      assert forall i | i in rows && i != id :: Content(w, i) == Content(Now(), i);
    }

    /** What the run may remove: a legacy key, or on a quiet table a copy it made itself. */
    ghost predicate IsRemovable(key: string)
      reads this`rows, this`objects, this`nextId, this`history, this`fetched
      requires |history| > 0
    {
      && (keyed ==> IsLegacyKeyOfARow(Now(), key) || key !in Start().objects)
      && (steady ==> (options.deleteSource && IsLegacyKeyOfARow(Now(), key)) || IsUnusedCopy(Now(), key))
      && (covered ==> Spared(Now(), key))
    }

    method Remove(key: string) returns (c: Call<bool>)
      requires Valid()
      requires key in objects && !References(Now(), key) && IsRemovable(key)
      modifies this`rows, this`objects, this`nextId, this`history
      ensures Valid() && Start() == old(Start()) && old(history) <= history
      ensures Evolves(old(Now()), Now(), {}, {key})
      ensures isolated ==> rows == old(rows) && (objects == old(objects) || objects == old(objects) - {key})
      ensures c == Done(true) ==> key !in objects
      ensures reliable ==> c == Done(true)
    {
      hide Run.Recorded, Run.RootedAt, Run.TrackedAt, Segregated;
      ghost var before := Now();
      Interference();
      assert !References(Now(), key) by {
        assert forall id | id in rows && id in before.rows :: before.rows[id].path != Some(key);
      }
      var fate := DrawFate();
      if fate.TakesEffect() {
        var w := Now().(objects := objects - {key});
        RemovalIsSafe(key, w);
        Commit(w);
      }
      c := match fate
        case Succeeds => Done(true)
        case FailsBefore => Done(false)
        case FailsAfter => Done(false)
        case ThrowsBefore => Threw
        case ThrowsAfter => Threw;
    }

    lemma RemovalIsSafe(key: string, w: World)
      requires Valid() && !References(Now(), key) && IsRemovable(key)
      requires w == Now().(objects := objects - {key})
      ensures NoLoss(Now(), w) && Bounded(w)
      ensures keyed ==> Segregated(w)
      ensures covered ==> KeepsCopies(Now(), w)
      ensures steady ==> Ready(w) && SameGoal(Now(), w, options.deleteSource)
      ensures TrackedAt(w) && RootedAt(Start(), w)
    {
      hide Run.Recorded, Run.RootedAt, Run.TrackedAt, SameGoal;
      RemovalKeepsDocuments(Now(), w, key);
      RemovalKeepsCopiesExactlyWhen(Now(), w, key);
      RemovalKeepsRoot(key, w);
      if steady {
        ReadyNow();
        if IsUnusedCopy(Now(), key) {
          RollbackKeepsGoal(Now(), w, key, options.deleteSource);
        } else {
          RemovalKeepsGoal(Now(), w, key);
        }
      }
    }

    lemma RemovalKeepsRoot(key: string, w: World)
      requires Valid() && !References(Now(), key) && IsRemovable(key)
      requires w == Now().(objects := objects - {key})
      ensures TrackedAt(w) && RootedAt(Start(), w)
    {
      hide Run.Recorded, Run.TrackedAt, Run.RootedAt, Segregated;
      forall id | id in rows
        ensures Content(w, id) == Content(Now(), id)
      {
        assert rows[id].path != Some(key);
      }
      SameRowsTracked(w);
      if keyed && IsTargetKey(key) {
        TargetIsNoLegacyKey(key);
      }
      RemovalRooted(key, w);
    }

    lemma RemovalRooted(key: string, w: World)
      requires |history| > 0 && RootedAt(Start(), Now())
      requires keyed && IsTargetKey(key) ==> key !in Start().objects
      requires w == Now().(objects := objects - {key})
      ensures RootedAt(Start(), w)
    {
      hide Run.IsDueAtStart, Run.IsTargetKey;
    }

    // ---------------------------------------------------------- fetch and classify

    /** No fetched row has been repointed yet. */
    ghost predicate Unmoved()
      reads this`rows, this`fetched
    {
      forall id | id in fetched && id in rows :: rows[id] == fetched[id]
    }

    /** One page of the listing as it is now, with the fetched rows remembered. */
    method FetchPage(from: nat) returns (c: Call<seq<Doc>>)
      requires Valid() && Unmoved()
      requires isolated ==> Now() == Start()
      modifies this`rows, this`objects, this`nextId, this`history, this`fetched
      ensures Valid() && Unmoved() && Start() == old(Start())
      ensures isolated ==> Now() == old(Now())
      ensures c.Done? ==> c.value == Page(Listing(rows, options.onlyCompany, nextId), from)
      ensures c.Done? ==> forall d | d in c.value :: Known(d)
      ensures forall id | id in old(fetched) :: id in fetched && fetched[id] == old(fetched)[id]
      ensures reliable ==> c.Done?
    {
      hide Run.Recorded, Run.TrackedAt, Run.RootedAt, Segregated, Listing, Page, Rely;
      FetchedIds();
      label before:
      Interference();
      assert Unmoved() by {
        UnmovedStays(old@before(Now()));
      }
      FetchedIds();
      var fate := DrawFate();
      if !fate.Succeeds? {
        return Threw;
      }
      var page := Page(Listing(rows, options.onlyCompany, nextId), from);
      PageMembers(rows, options.onlyCompany, nextId, from);
      fetched := fetched + map id | id in Ids(page) :: rows[id];
      UnmovedIsTracked();
      c := Done(page);
    }

    lemma UnmovedStays(before: World)
      requires Rely(before, Now())
      requires forall id | id in fetched :: id < before.nextId && (id in before.rows ==> before.rows[id] == fetched[id])
      ensures Unmoved()
    {
    }

    lemma FetchedIds()
      requires Valid()
      ensures forall id | id in fetched ::
                id < nextId && Matches(fetched[id], options.onlyCompany) && (isolated ==> id in rows)
    {
      hide Run.Recorded, Run.RootedAt, Segregated, Content;
    }

    lemma UnmovedIsTracked()
      requires Modes() && Unmoved() && |history| > 0 && (isolated ==> Now() == Start())
      requires forall id | id in fetched ::
                 id < nextId && Matches(fetched[id], options.onlyCompany) && (isolated ==> id in rows)
      ensures Tracking() && RootedAt(Start(), Now())
    {
    }

    /**
     * Pages through the table until a short page. On a quiet table the result is the whole listing, each row once;
     * with other writers at work every fetched row is still a snapshot of a row that existed.
     */
    method FetchAllDocuments() returns (c: Call<seq<Doc>>)
      requires Valid() && fetched == map[]
      requires isolated ==> Now() == Start()
      modifies this`rows, this`objects, this`nextId, this`history, this`fetched
      ensures Valid() && Unmoved() && Start() == old(Start())
      ensures isolated ==> Now() == old(Now())
      ensures c.Done? ==> forall d | d in c.value :: Known(d)
      ensures c.Done? && isolated ==> c.value == Listing(rows, options.onlyCompany, nextId)
      ensures reliable ==> c.Done?
    {
      hide Run.Recorded, Run.Tracking, Run.RootedAt, Segregated, Bounded, Listing;
      var docs: seq<Doc>, from := [], 0;
      while true
        invariant Valid() && Unmoved() && Start() == old(Start())
        invariant isolated ==> Now() == old(Now())
        invariant from <= lastId
        invariant forall d | d in docs :: Known(d)
        invariant isolated ==> from <= |Listing(rows, options.onlyCompany, nextId)|
                               && docs == Listing(rows, options.onlyCompany, nextId)[..from]
        decreases lastId - from
      {
        var data :- FetchPage(from);
        ListingMembers(rows, options.onlyCompany, nextId);
        if |data| == 0 {
          break;
        }
        docs := docs + data;
        if |data| < PAGE_SIZE {
          break;
        }
        from := from + PAGE_SIZE;
      }
      c := Done(docs);
    }

    /** Splits the fetched rows, in order; whatever is neither scoped nor a candidate is left alone. */
    static method Classify(docs: seq<Doc>) returns (alreadyScoped: seq<Doc>, candidates: seq<Doc>, unmapped: seq<Doc>)
      ensures alreadyScoped == Those(docs, ScopedRow)
      ensures candidates == Those(docs, CandidateRow)
      ensures unmapped == Those(docs, UnmappedRow)
    {
      alreadyScoped, candidates, unmapped := [], [], [];
      for n := 0 to |docs|
        invariant alreadyScoped == Those(docs[..n], ScopedRow)
        invariant candidates == Those(docs[..n], CandidateRow)
        invariant unmapped == Those(docs[..n], UnmappedRow)
      {
        var doc := docs[n];
        assert docs[..n + 1][..n] == docs[..n];
        if doc.row.path.None? || doc.row.path.value == "" {
          continue;
        }
        if doc.row.company.None? {
          unmapped := unmapped + [doc];
          continue;
        }
        if IsCompanyScoped(doc.row.path.value, doc.row.company.value) {
          alreadyScoped := alreadyScoped + [doc];
        } else if IsLegacyDocumentPath(doc.row.path.value) {
          candidates := candidates + [doc];
        } else {
          unmapped := unmapped + [doc];
        }
      }
      assert docs[..|docs|] == docs;
    }

    // ---------------------------------------------------------- one legacy key

    method FailAll(docs: seq<Doc>, storagePath: string, step: Step)
      modifies this`failures
      ensures |failures| == |old(failures)| + |docs| && old(failures) <= failures
      ensures forall i | 0 <= i < |docs| :: failures[|old(failures)| + i] == Failure(docs[i].id, storagePath, step)
    {
      for n := 0 to |docs|
        invariant |failures| == |old(failures)| + n && old(failures) <= failures
        invariant forall i | 0 <= i < n :: failures[|old(failures)| + i] == Failure(docs[i].id, storagePath, step)
      {
        failures := failures + [Failure(docs[n].id, storagePath, step)];
      }
    }

    /** The rows of one legacy key. */
    ghost predicate IsGroupAt(source: string, docs: seq<Doc>)
      reads this`fetched
    {
      forall d | d in docs :: Known(d) && IsCandidate(d.row) && d.row.path == Some(source)
    }

    /** Removes a legacy object, but only when the live table confirms that no row references it. */
    method RemoveLegacySourceIfUnreferenced(key: string) returns (c: Call<bool>)
      requires Valid()
      requires key in objects
      requires keyed ==> IsLegacyKeyOfARow(Now(), key)
      requires steady ==> options.deleteSource
      requires covered ==> !References(Now(), key) ==> Spared(Now(), key)
      modifies this`rows, this`objects, this`nextId, this`history
      ensures Valid() && Start() == old(Start()) && old(history) <= history
      ensures Evolves(old(Now()), Now(), {}, {key})
      ensures isolated ==> rows == old(rows) && (objects == old(objects) || objects == old(objects) - {key})
      ensures c == Done(true) ==> key !in objects
      ensures reliable ==> c.Done? && (!c.value ==> References(Now(), key))
      ensures reliable && isolated ==> (key in objects <==> References(Now(), key))
    {
      var referenced := PathStillReferenced(key);
      if referenced.Threw? || referenced.value {
        return Done(false);
      }
      c := Remove(key);
    }

    /** The objects once a copy is made, unless there was an object at its key. */
    static function WithCopy(objects: map<string, Bytes>, key: string, bytes: Bytes): map<string, Bytes> {
      if key in objects then objects else objects[key := bytes]
    }

    /** Step 3 for one company: the copy, unless an earlier run got this far. Done(None) is a failed upload. */
    method EnsureCopy(source: string, bytes: Bytes, targetPath: string) returns (uploadedThisRun: Option<bool>)
      requires Valid() && IsDue(targetPath, bytes)
      modifies this`rows, this`objects, this`nextId, this`history
      ensures Valid() && Start() == old(Start()) && old(history) <= history
      ensures Rely(old(Now()), Now())
      ensures isolated ==> rows == old(rows)
      ensures isolated ==> forall k | k in objects :: k in old(objects) || k == targetPath
      ensures uploadedThisRun.Some? ==> targetPath in objects
      ensures uploadedThisRun == Some(true) ==> objects[targetPath] == bytes
      ensures keyed && uploadedThisRun == Some(true) ==> targetPath !in Start().objects
      ensures reliable && isolated ==>
                && uploadedThisRun == Some(targetPath !in old(objects))
                && objects == WithCopy(old(objects), targetPath, bytes)
    {
      hide Run.Recorded, Run.Tracking, Segregated;
      ghost var id :| id in fetched && IsCandidate(fetched[id]) && Target(fetched[id]) == targetPath
                      && fetched[id].path.value in objects && objects[fetched[id].path.value] == bytes;
      assert IsTargetKey(targetPath);
      ghost var before := Now();
      var present := ObjectExists(targetPath);
      if present.Threw? {
        return None;
      }
      ghost var between := Now();
      if present.value {
        return Some(false);
      }
      RelyKeepsObject(before, between, fetched[id].path.value);
      var uploaded := Upload(targetPath, bytes);
      RelyIsTransitive(before, between, Now());
      uploadedThisRun := if uploaded == Done(true) then Some(true) else None;
    }

    /** A copy this run uploaded was not there when it began. */
    ghost predicate IsOwnCopy(start: World, t: TargetState) {
      keyed && t.uploadedThisRun ==> t.targetPath !in start.objects
    }

    ghost predicate AreOwnCopies(start: World, targets: map<CompanyId, TargetState>) {
      forall company | company in targets :: IsOwnCopy(start, targets[company])
    }

    /** Steps 3 and 4 for one company: copy the bytes to its scoped key, then read them back. */
    method CopyToCompany(source: string, bytes: Bytes, company: CompanyId, docs: seq<Doc>)
      returns (c: Call<Option<TargetState>>)
      requires Valid()
      requires source in objects && objects[source] == bytes
      requires docs != [] && IsGroupAt(source, docs) && forall d | d in docs :: d.row.company == Some(company)
      modifies this`rows, this`objects, this`nextId, this`history, this`failures
      ensures Valid() && Start() == old(Start()) && old(history) <= history && old(failures) <= failures
      ensures Rely(old(Now()), Now())
      ensures isolated ==> rows == old(rows)
      ensures isolated ==> forall k | k in objects :: k in old(objects) || Some(k) == CompanyScopedPath(source, company)
      ensures c.Done? && c.value.Some? ==>
                var t := c.value.value;
                IsCopied(Now(), source, company, t) && t.repointed == 0 && IsOwnCopy(Start(), t)
      ensures c.Done? ==> |failures| == |old(failures)| + if c.value.Some? then 0 else |docs|
      ensures reliable && isolated ==>
                && c.Done? && c.value.Some? && failures == old(failures)
                && var t := c.value.value;
                && t.uploadedThisRun == (t.targetPath !in old(objects))
                && objects == WithCopy(old(objects), t.targetPath, bytes)
    {
      hide Run.Recorded, Run.Tracking, Run.RootedAt, Segregated, Bounded, Content;
      ghost var before := Now();
      assert docs[0] in docs;
      var targetPath := CompanyScopedPath(source, company).value;
      assert IsDue(targetPath, bytes) by {
        assert docs[0].id in fetched && Target(fetched[docs[0].id]) == targetPath;
      }
      var uploadedThisRun := EnsureCopy(source, bytes, targetPath);
      if uploadedThisRun.None? {
        FailAll(docs, source, UploadCopy);
        return Done(None);
      }
      ghost var between := Now();
      var reply := Download(targetPath);
      RelyIsTransitive(before, between, Now());
      var copy :- reply;
      if copy.None? {
        FailAll(docs, source, VerifyReadable);
        return Done(None);
      }
      c := Done(Some(TargetState(targetPath, Sha256(copy.value), uploadedThisRun.value, 0)));
    }

    /** A key some fetched row is repointed to. */
    ghost predicate IsTargetKey(key: string)
      reads this`fetched
    {
      exists id | id in fetched :: IsCandidate(fetched[id]) && Target(fetched[id]) == key
    }

    lemma TargetIsNoLegacyKey(key: string)
      requires Valid() && keyed && IsTargetKey(key)
      ensures !IsLegacyKeyOfARow(Now(), key)
    {
      var id :| id in fetched && IsCandidate(fetched[id]) && Target(fetched[id]) == key;
      MovedIsScoped(fetched[id]);
      assert id in rows && rows[id].company == fetched[id].company;
    }

    /** Copies for one company of a group, adding its target when the copy is readable. */
    method CopyNext(source: string, bytes: Bytes, docs: seq<Doc>, companyRows: Group<CompanyId, Doc>,
                    targets: map<CompanyId, TargetState>)
      returns (c: Call<map<CompanyId, TargetState>>)
      requires Valid()
      requires source in objects && objects[source] == bytes
      requires IsGroupAt(source, docs) && AreCopies(Now(), source, docs, targets) && AreOwnCopies(Start(), targets)
      requires companyRows.items != [] && companyRows.items == ItemsOf(docs, CompanyOf, companyRows.key)
      requires forall company | company in targets :: targets[company].repointed == 0
      modifies this`rows, this`objects, this`nextId, this`history, this`failures
      ensures Valid() && Start() == old(Start()) && old(history) <= history && old(failures) <= failures
      ensures Rely(old(Now()), Now())
      ensures isolated ==> rows == old(rows)
      ensures isolated ==> forall k | k in objects :: k in old(objects) || k in TargetsOf(docs)
      ensures c.Done? ==> AreCopies(Now(), source, docs, c.value) && AreOwnCopies(Start(), c.value)
      ensures c.Done? ==> targets.Keys <= c.value.Keys
                          && forall company | company in c.value :: c.value[company].repointed == 0
      ensures c.Done? ==>
                (c.value == targets && |failures| == |old(failures)| + |companyRows.items|)
                || (&& companyRows.key in c.value && c.value == targets[companyRows.key := c.value[companyRows.key]]
                    && |failures| == |old(failures)|)
      ensures reliable && isolated ==>
                && c.Done? && IsCopiedTo(old(objects), objects, bytes, companyRows.key, targets, c.value)
                && failures == old(failures)
    {
      hide Run.Recorded, Run.Tracking, Run.RootedAt, Segregated, AreCopies, Bounded, NoLoss, Content;
      var company := companyRows.key;
      ghost var before := Now();
      ItemsOfMembers(docs, CompanyOf, company);
      ghost var one := companyRows.items[0];
      assert one in companyRows.items && one in docs && one.row.company == Some(company);
      assert Known(one) && IsCandidate(one.row) && one.row.path == Some(source);
      assert Target(one.row) in TargetsOf(docs) && Target(one.row) == CompanyScopedPath(source, company).value;
      var target :- CopyToCompany(source, bytes, company, companyRows.items);
      CopiesStay(before, Now(), {}, source, docs, targets);
      if target.Some? {
        CopiesGrow(Now(), source, docs, targets, company, target.value);
        c := Done(targets[company := target.value]);
      } else {
        c := Done(targets);
      }
    }

    /** On a quiet table with reliable calls: one more company has its copy, made only if there was none. */
    ghost predicate IsCopiedTo(before: map<string, Bytes>, after: map<string, Bytes>, bytes: Bytes, company: CompanyId,
                               targets: map<CompanyId, TargetState>, targets': map<CompanyId, TargetState>) {
      && company in targets'
      && targets' == targets[company := targets'[company]]
      && targets'[company].uploadedThisRun == (targets'[company].targetPath !in before)
      && after == WithCopy(before, targets'[company].targetPath, bytes)
    }

    /** On a quiet table with reliable calls: the copies made are exactly those that were missing. */
    ghost predicate AreMade(before: map<string, Bytes>, after: map<string, Bytes>, bytes: Bytes,
                            targets: map<CompanyId, TargetState>) {
      && (forall k | k in before :: k in after && after[k] == before[k])
      && (forall k | k in after && k !in before :: after[k] == bytes && k in TargetPaths(targets))
      && (forall company | company in targets ::
        targets[company].uploadedThisRun == (targets[company].targetPath !in before))
    }

    lemma MadeOneMore(w: World, source: string, docs: seq<Doc>, first: map<string, Bytes>, before: map<string, Bytes>,
                      bytes: Bytes, company: CompanyId,
                      targets: map<CompanyId, TargetState>, targets': map<CompanyId, TargetState>)
      requires AreMade(first, before, bytes, targets)
                && IsCopiedTo(before, w.objects, bytes, company, targets, targets')
      requires AreCopies(w, source, docs, targets') && company !in targets
      ensures AreMade(first, w.objects, bytes, targets')
    {
      hide AreCopies;
      CopiesAreDistinct(w, source, docs, targets', company);
      forall k | k in TargetPaths(targets)
        ensures k in TargetPaths(targets')
      {
        var other :| other in targets && targets[other].targetPath == k;
        assert targets'[other] == targets[other];
      }
      var path := targets'[company].targetPath;
      assert path !in TargetPaths(targets) by {
        assert forall other | other in targets ::
          targets'[other] == targets[other] && targets[other].targetPath != path;
      }
      forall other | other in targets'
        ensures targets'[other].uploadedThisRun == (targets'[other].targetPath !in first)
      {
        assert other != company ==> other in targets && targets'[other] == targets[other];
      }
    }

    /** One copy per company that shares the source. */
    method CopyToCompanies(source: string, bytes: Bytes, docs: seq<Doc>, companies: seq<Group<CompanyId, Doc>>)
      returns (c: Call<map<CompanyId, TargetState>>)
      requires Valid()
      requires source in objects && objects[source] == bytes
      requires IsGroupAt(source, docs) && IsGroupedBy(docs, CompanyOf, companies)
      modifies this`rows, this`objects, this`nextId, this`history, this`failures
      ensures Valid() && Start() == old(Start()) && old(history) <= history && old(failures) <= failures
      ensures Rely(old(Now()), Now())
      ensures isolated ==> rows == old(rows)
      ensures isolated ==> forall k | k in objects :: k in old(objects) || k in TargetsOf(docs)
      ensures c.Done? ==> AreCopies(Now(), source, docs, c.value) && AreOwnCopies(Start(), c.value)
      ensures c.Done? ==> forall company | company in c.value :: c.value[company].repointed == 0
      ensures c.Done? ==> |failures| == |old(failures)| + Unserved(docs, c.value)
      ensures reliable && isolated ==>
                && c.Done? && AreMade(old(objects), objects, bytes, c.value) && failures == old(failures)
                && forall d | d in docs :: d.row.company.value in c.value
    {
      hide Run.Recorded, Run.Tracking, Run.RootedAt, Segregated, AreCopies, TargetsOf, Rely, AreMade, Run.IsCopiedTo;
      hide Run.IsOwnCopy, Run.IsAccounted, IsGroupedBy;
      CompaniesListed(docs, companies);
      NothingAccounted(|failures|, docs, companies);
      RelyIsReflexive(Now());
      CopiesGrowFromNone(Now(), source, docs);
      var targets: map<CompanyId, TargetState> := map[];
      NoneMade(objects, bytes);
      for n := 0 to |companies|
        invariant Valid() && Start() == old(Start()) && old(history) <= history && old(failures) <= failures
        invariant Rely(old(Now()), Now()) && source in objects && objects[source] == bytes
        invariant isolated ==> rows == old(rows)
        invariant isolated ==> forall k | k in objects :: k in old(objects) || k in TargetsOf(docs)
        invariant AreCopies(Now(), source, docs, targets) && AreOwnCopies(Start(), targets)
        invariant forall company | company in targets :: targets[company].repointed == 0
        invariant IsAccounted(|old(failures)|, |failures|, docs, companies, n, targets)
        invariant reliable && isolated ==> AreMade(old(objects), objects, bytes, targets) && failures == old(failures)
        invariant reliable && isolated ==> targets.Keys == set j | 0 <= j < n :: companies[j].key
      {
        ghost var between, failed := Now(), |failures|;
        var next := CopyNext(source, bytes, docs, companies[n], targets);
        RelyIsTransitive(old(Now()), between, Now());
        RelyKeepsObject(old(Now()), Now(), source);
        if next.Done? {
          AccountedOneMore(|old(failures)|, failed, |failures|, docs, companies, n, targets, next.value);
        }
        if reliable && isolated {
          NextCompany(old(objects), between.objects, bytes, source, docs, companies, n, targets, next.value);
        }
        targets :- next;
      }
      AllAccounted(source, |old(failures)|, docs, companies, targets);
      if reliable && isolated {
        EveryCompanyIsServed(source, docs, companies, targets);
      }
      c := Done(targets);
    }

    /** Each row of a company handled so far has its company's copy or a failure. */
    static ghost predicate IsAccounted(first: nat, failed: nat, docs: seq<Doc>, companies: seq<Group<CompanyId, Doc>>,
                                       n: nat, targets: map<CompanyId, TargetState>)
      requires n <= |companies|
    {
      && failed == first + UnservedOf(docs, companies, n, targets)
      && forall company | company in targets :: exists j :: 0 <= j < n && companies[j].key == company
    }

    lemma AccountedOneMore(first: nat, failed: nat, failed': nat, docs: seq<Doc>, companies: seq<Group<CompanyId, Doc>>,
                           n: nat, targets: map<CompanyId, TargetState>, targets': map<CompanyId, TargetState>)
      requires IsGroupedBy(docs, CompanyOf, companies) && n < |companies|
      requires IsAccounted(first, failed, docs, companies, n, targets)
      requires (targets' == targets && failed' == failed + |companies[n].items|)
               || (&& companies[n].key in targets' && failed' == failed
                   && targets' == targets[companies[n].key := targets'[companies[n].key]])
      ensures IsAccounted(first, failed', docs, companies, n + 1, targets')
    {
      hide ItemsOf;
      var company := companies[n].key;
      assert company !in targets;
      if targets' != targets {
        OneMoreTarget(docs, companies, n, targets, company, targets'[company]);
      }
    }

    lemma AllAccounted(source: string, first: nat, docs: seq<Doc>, companies: seq<Group<CompanyId, Doc>>,
                       targets: map<CompanyId, TargetState>)
      requires IsGroupAt(source, docs) && IsGroupedBy(docs, CompanyOf, companies)
      requires IsAccounted(first, |failures|, docs, companies, |companies|, targets)
      ensures |failures| == first + Unserved(docs, targets)
    {
      hide ItemsOf;
      forall d | d in docs
        ensures d.row.company.Some?
        ensures exists j :: 0 <= j < |companies| && companies[j].key == d.row.company.value
      {
        assert CompanyOf(d).Some?;
      }
      UnservedByCompany(docs, companies, targets);
    }

    lemma EveryCompanyIsServed(source: string, docs: seq<Doc>, companies: seq<Group<CompanyId, Doc>>,
                               targets: map<CompanyId, TargetState>)
      requires IsGroupAt(source, docs) && IsGroupedBy(docs, CompanyOf, companies)
      requires targets.Keys == set j | 0 <= j < |companies| :: companies[j].key
      ensures forall d | d in docs :: d.row.company.value in targets
    {
      forall d | d in docs
        ensures d.row.company.value in targets
      {
        assert CompanyOf(d).Some?;
        var j :| 0 <= j < |companies| && companies[j].key == CompanyOf(d).value;
      }
    }

    lemma NothingAccounted(failed: nat, docs: seq<Doc>, companies: seq<Group<CompanyId, Doc>>)
      ensures IsAccounted(failed, failed, docs, companies, 0, map[])
    {
    }

    lemma CompaniesListed(docs: seq<Doc>, companies: seq<Group<CompanyId, Doc>>)
      requires IsGroupedBy(docs, CompanyOf, companies)
      ensures forall i | 0 <= i < |companies| ::
                companies[i].items != [] && companies[i].items == ItemsOf(docs, CompanyOf, companies[i].key)
    {
    }

    lemma NoneMade(objects: map<string, Bytes>, bytes: Bytes)
      ensures AreMade(objects, objects, bytes, map[])
    {
    }

    lemma NextCompany(first: map<string, Bytes>, before: map<string, Bytes>, bytes: Bytes, source: string,
                      docs: seq<Doc>,
                      companies: seq<Group<CompanyId, Doc>>, n: nat,
                      targets: map<CompanyId, TargetState>, targets': map<CompanyId, TargetState>)
      requires IsGroupedBy(docs, CompanyOf, companies) && n < |companies|
      requires AreMade(first, before, bytes, targets)
      requires targets.Keys == set j | 0 <= j < n :: companies[j].key
      requires IsCopiedTo(before, objects, bytes, companies[n].key, targets, targets')
      requires AreCopies(Now(), source, docs, targets')
      ensures AreMade(first, objects, bytes, targets')
      ensures targets'.Keys == set j | 0 <= j < n + 1 :: companies[j].key
    {
      hide AreMade, AreCopies;
      MadeOneMore(Now(), source, docs, first, before, bytes, companies[n].key, targets, targets');
      assert targets'.Keys == targets.Keys + {companies[n].key};
    }

    /** The hash a row's copy must have: the stored one, or that of the source bytes. */
    static function ExpectedHash(row: Row, sourceHash: Digest): Digest {
      row.hash.GetOr(sourceHash)
    }

    /** Step 5 for one row: repoint it, only when the copy is proven. Done(true) counts as migrated. */
    method RepointRow(source: string, sourceHash: Digest, doc: Doc, target: TargetState) returns (c: Call<bool>)
      requires Valid()
      requires source in objects && Sha256(objects[source]) == sourceHash
      requires Known(doc) && IsCandidate(doc.row) && doc.row.path == Some(source)
      requires IsCopied(Now(), source, doc.row.company.value, target)
      modifies this`rows, this`objects, this`nextId, this`history, this`failures
      ensures Valid() && Start() == old(Start()) && old(history) <= history && old(failures) <= failures
      ensures Evolves(old(Now()), Now(), {doc.id}, {})
      ensures isolated ==> rows.Keys == old(rows.Keys) && objects == old(objects)
      ensures c == Done(true) ==> target.copyHash == ExpectedHash(doc.row, sourceHash)
      ensures c == Done(true) && doc.id in rows ==> rows[doc.id] == Moved(doc.row) && Content(Now(), doc.id).Some?
      ensures c == Done(false) ==> |failures| == |old(failures)| + 1
      ensures c == Done(true) ==> failures == old(failures)
      ensures reliable && isolated ==>
                && c == Done(target.copyHash == ExpectedHash(doc.row, sourceHash))
                && rows == if c.value then old(rows)[doc.id := Moved(doc.row)] else old(rows)
    {
      hide Run.Recorded, Run.RootedAt, Segregated;
      if target.copyHash != ExpectedHash(doc.row, sourceHash) {
        failures := failures + [Failure(doc.id, source, VerifyHash)];
        return Done(false);
      }
      var updated :- UpdatePath(doc.id, target.targetPath);
      if updated.None? || updated.value == 0 {
        failures := failures + [Failure(doc.id, source, UpdatePointer)];
        return Done(false);
      }
      c := Done(true);
    }

    /** In a settled run a row whose copy was checked is where it will stay. */
    lemma CheckedRowIsFinal(source: string, doc: Doc, target: TargetState)
      requires Valid() && settled && source in objects
      requires Known(doc) && IsCandidate(doc.row) && doc.row.path == Some(source)
      requires IsCopied(Now(), source, doc.row.company.value, target)
      requires target.copyHash == ExpectedHash(doc.row, Sha256(objects[source])) ==>
                 doc.id in rows ==> rows[doc.id] == Moved(doc.row)
      ensures doc.id in rows && doc.id in Start().rows && rows[doc.id] == FinalRow(Start(), doc.id)
      ensures target.copyHash != ExpectedHash(doc.row, Sha256(objects[source])) ==>
                rows[doc.id].path == Some(source) && !target.uploadedThisRun
    {
      MovedIsScoped(doc.row);
      assert Ready(Now()) && SameGoal(history[0], Now(), options.deleteSource);
      assert FinalRow(Now(), doc.id) == FinalRow(Start(), doc.id);
      assert IsPlaced(rows[doc.id]) && Content(Now(), doc.id).Some?;
    }

    /** The copy made for the row has the hash that the row expects. */
    static predicate Agrees(doc: Doc, targets: map<CompanyId, TargetState>, sourceHash: Digest) {
      && doc.row.company.Some? && doc.row.company.value in targets
      && targets[doc.row.company.value].copyHash == ExpectedHash(doc.row, sourceHash)
    }

    /** Targets that differ in their counters at most. */
    static ghost predicate AreSameCopies(a: map<CompanyId, TargetState>, b: map<CompanyId, TargetState>) {
      && a.Keys == b.Keys
      && forall company | company in a :: b[company].(repointed := a[company].repointed) == a[company]
    }

    /** On a quiet table with reliable calls: exactly the rows whose copies agree were repointed, and counted. */
    static ghost predicate AreRepointed(before: map<nat, Row>, after: map<nat, Row>, docs: seq<Doc>,
                                        targets: map<CompanyId, TargetState>, sourceHash: Digest, migrated: nat) {
      && after.Keys == before.Keys
      && (forall d | d in docs && IsCandidate(d.row) ::
            d.id in after && after[d.id] == if Agrees(d, targets, sourceHash) then Moved(d.row) else before[d.id])
      && (forall id | id in before && id !in Ids(docs) :: after[id] == before[id])
      && migrated <= |docs|
      && (migrated == |docs| <==> forall d | d in docs :: Agrees(d, targets, sourceHash))
    }

    /** On a quiet table with reliable calls: as many rows of a fresh group were counted as have changed. */
    static ghost predicate Counts(before: map<nat, Row>, after: map<nat, Row>, docs: seq<Doc>, migrated: nat) {
      AreFresh(before, docs) && Ascending(docs) ==> migrated == |Changed(before, after)|
    }

    static lemma CountsNothing(rows: map<nat, Row>, docs: seq<Doc>)
      ensures Counts(rows, rows, docs, 0)
    {
    }

    /** One more row of a group changes exactly if its copy agrees. */
    static lemma CountsOneMore(before: map<nat, Row>, mid: map<nat, Row>, after: map<nat, Row>, docs: seq<Doc>, n: nat,
                               targets: map<CompanyId, TargetState>, sourceHash: Digest, migrated: nat)
      requires n < |docs| && IsCandidate(docs[n].row) && docs[n].id in mid
      requires AreRepointed(before, mid, docs[..n], targets, sourceHash, migrated)
      requires Counts(before, mid, docs[..n], migrated)
      requires after == if Agrees(docs[n], targets, sourceHash) then mid[docs[n].id := Moved(docs[n].row)] else mid
      ensures Counts(before, after, docs[..n + 1],
                     migrated + (if Agrees(docs[n], targets, sourceHash) then 1 else 0))
    {
      hide Agrees, IsCandidate, Moved, Run.AreRepointed, Changed, Ascending;
      var doc := docs[n];
      if AreFresh(before, docs[..n + 1]) && Ascending(docs[..n + 1]) {
        AscendingPrefix(docs, n);
        assert docs[..n + 1] == docs[..n] + [doc];
        assert doc in docs[..n + 1];
        UntouchedYet(before, mid, docs[..n], targets, sourceHash, migrated, doc.id);
        MovedIsElsewhere(doc.row);
        OneMoreChanged(before, mid, doc.id, Moved(doc.row));
      }
    }

    static lemma UntouchedYet(before: map<nat, Row>, mid: map<nat, Row>, docs: seq<Doc>,
                              targets: map<CompanyId, TargetState>, sourceHash: Digest, migrated: nat, id: nat)
      requires AreRepointed(before, mid, docs, targets, sourceHash, migrated) && id !in Ids(docs) && id in before
      ensures id in mid && mid[id] == before[id]
    {
    }

    static lemma AscendingPrefix(docs: seq<Doc>, n: nat)
      requires n < |docs| && Ascending(docs[..n + 1])
      ensures Ascending(docs[..n]) && docs[n].id !in Ids(docs[..n])
    {
      assert docs[..n + 1][..n] == docs[..n];
      assert docs[..n + 1][n] == docs[n];
      assert forall i | 0 <= i < n :: docs[..n + 1][i] == docs[i] == docs[..n][i];
    }

    static lemma MovedIsElsewhere(row: Row)
      requires IsCandidate(row)
      ensures Moved(row) != row
    {
      MovedIsScoped(row);
    }

    static lemma RepointedOneMore(before: map<nat, Row>, mid: map<nat, Row>, after: map<nat, Row>, docs: seq<Doc>,
                                  doc: Doc, targets: map<CompanyId, TargetState>, sourceHash: Digest,
                                  migrated: nat, migrated': nat)
      requires AreRepointed(before, mid, docs, targets, sourceHash, migrated)
      requires IsCandidate(doc.row) && doc.id in before && forall d | d in docs && d.id == doc.id :: d == doc
      requires after == if Agrees(doc, targets, sourceHash) then mid[doc.id := Moved(doc.row)] else mid
      requires migrated' == migrated + (if Agrees(doc, targets, sourceHash) then 1 else 0)
      ensures AreRepointed(before, after, docs + [doc], targets, sourceHash, migrated')
    {
      hide Agrees, IsCandidate, Target;
      assert doc in docs + [doc];
      assert forall d :: d in docs + [doc] <==> d in docs || d == doc;
      assert Ids(docs + [doc]) == Ids(docs) + {doc.id};
      assert doc.id !in Ids(docs) ==> mid[doc.id] == before[doc.id];
    }

    /** One row of the loop over a group: skipped without a target, else checked and repointed. */
    method RepointNext(source: string, sourceHash: Digest, docs: seq<Doc>, doc: Doc,
                       migratedRows: nat, targets: map<CompanyId, TargetState>)
      returns (c: Call<(nat, map<CompanyId, TargetState>)>)
      requires Valid()
      requires source in objects && Sha256(objects[source]) == sourceHash
      requires IsGroupAt(source, docs) && doc in docs && AreCopies(Now(), source, docs, targets)
      requires reliable && isolated ==> doc.row.company.value in targets
      modifies this`rows, this`objects, this`nextId, this`history, this`failures
      ensures Valid() && Start() == old(Start()) && old(history) <= history && old(failures) <= failures
      ensures Evolves(old(Now()), Now(), {doc.id}, {})
      ensures isolated ==> rows.Keys == old(rows.Keys) && objects == old(objects)
      ensures c.Done? ==> AreCopies(Now(), source, docs, c.value.1) && AreSameCopies(targets, c.value.1)
      ensures reliable && isolated ==>
                && c.Done?
                && var agrees := Agrees(doc, targets, sourceHash);
                && rows == (if agrees then old(rows)[doc.id := Moved(doc.row)] else old(rows))
                && c.value.0 == migratedRows + (if agrees then 1 else 0)
      ensures c.Done? ==> IsNext(Now(), source, doc, migratedRows, targets, c.value.0, c.value.1)
      ensures c.Done? && c.value.0 == migratedRows + 1 ==> failures == old(failures)
      ensures c.Done? ==>
                |failures| + c.value.0 ==
                  |old(failures)| + migratedRows + if IsServed(doc, targets) then 1 else 0
      ensures settled ==> c.Done? && IsSettledNext(Now(), Start(), source, doc, migratedRows, targets, c.value.0)
    {
      hide Run.Recorded, Run.Tracking, Run.RootedAt, Segregated, AreCopies, SameGoal, Ready, Bounded, FinalRow, Rely;
      hide AreRehomed, CompanyScopedPath, NoLoss, IsCopied;
      if doc.row.company.value !in targets {
        return Done((migratedRows, targets));
      }
      ghost var before := Now();
      var target := targets[doc.row.company.value];
      EachIsCopied(before, source, docs, targets, doc.row.company.value);
      var repointed :- RepointRow(source, sourceHash, doc, target);
      CopiesStay(before, Now(), {doc.id}, source, docs, targets);
      CountedCopiesAreCopies(Now(), source, docs, targets, doc.row.company.value);
      if settled {
        CheckedRowIsFinal(source, doc, target);
      }
      if repointed {
        c := Done((migratedRows + 1, targets[doc.row.company.value := target.(repointed := target.repointed + 1)]));
      } else {
        c := Done((migratedRows, targets));
      }
    }

    lemma KnownIds(source: string, docs: seq<Doc>)
      requires Valid() && IsGroupAt(source, docs)
      ensures forall d | d in docs :: d.id < nextId && (isolated ==> d.id in rows)
      ensures forall d, e | d in docs && e in docs && d.id == e.id :: d == e
    {
    }

    /** A copy that counts a repointed row has one. */
    static ghost predicate AreUsed(w: World, docs: seq<Doc>, targets: map<CompanyId, TargetState>) {
      forall company | company in targets && targets[company].repointed > 0 ::
        exists d | d in docs :: d.row.company == Some(company) && IsRehomed(w, d)
    }

    static lemma UsedOneMore(a: World, b: World, source: string, docs: seq<Doc>, n: nat, migrated: nat,
                             targets: map<CompanyId, TargetState>, migrated': nat,
                             targets': map<CompanyId, TargetState>)
      requires n < |docs| && AreUsed(a, docs[..n], targets) && Bounded(a) && NoLoss(a, b) && IsCandidate(docs[n].row)
      requires Evolves(a, b, {docs[n].id}, {}) && a.rows.Keys == b.rows.Keys && docs[n].id in b.rows
      requires forall d | d in docs && d.id == docs[n].id :: d == docs[n]
      requires b.rows[docs[n].id] == a.rows[docs[n].id] || b.rows[docs[n].id] == Moved(docs[n].row)
      requires IsNext(b, source, docs[n], migrated, targets, migrated', targets')
      ensures AreUsed(b, docs[..n + 1], targets')
    {
      hide IsCandidate, Moved, NoLoss, Evolves, Bounded, IsRehomed;
      assert docs[..n + 1] == docs[..n] + [docs[n]];
      forall company | company in targets' && targets'[company].repointed > 0
        ensures exists d | d in docs[..n + 1] :: d.row.company == Some(company) && IsRehomed(b, d)
      {
        if company in targets && targets[company].repointed > 0 {
          var d :| d in docs[..n] && d.row.company == Some(company) && IsRehomed(a, d);
          assert d in docs;
          StillRehomed(a, b, d, docs[n]);
          assert d in docs[..n + 1];
        } else {
          assert docs[n] in docs[..n + 1];
        }
      }
    }

    static lemma StillRehomed(a: World, b: World, d: Doc, doc: Doc)
      requires IsRehomed(a, d) && Bounded(a) && NoLoss(a, b) && Evolves(a, b, {doc.id}, {}) && IsCandidate(doc.row)
      requires a.rows.Keys == b.rows.Keys && (d.id == doc.id ==> d == doc) && doc.id in b.rows
      requires b.rows[doc.id] == a.rows[doc.id] || b.rows[doc.id] == Moved(doc.row)
      ensures IsRehomed(b, d)
    {
      assert KeepsRow(a, b, d.id);
    }

    /** How far the loop over a group has come after its first n rows. */
    static ghost predicate RowsReached(steady: bool, settled: bool, first: World, w: World, start: World,
                                       source: string, docs: seq<Doc>, n: nat, targets0: map<CompanyId, TargetState>,
                                       sourceHash: Digest, migrated: nat, targets: map<CompanyId, TargetState>)
      requires n <= |docs|
    {
      && migrated <= n
      && (steady ==>
            && AreRepointed(first.rows, w.rows, docs[..n], targets0, sourceHash, migrated)
            && Counts(first.rows, w.rows, docs[..n], migrated)
            && AreUsed(w, docs[..n], targets))
      && (migrated == n ==> AreRehomed(w, docs[..n]))
      && (settled ==> IsSettledGroup(w, start, source, docs[..n], migrated, targets))
    }

    lemma NoRowReached(source: string, docs: seq<Doc>, targets: map<CompanyId, TargetState>, sourceHash: Digest)
      requires |history| > 0 && forall company | company in targets :: targets[company].repointed == 0
      ensures RowsReached(reliable && isolated, settled, Now(), Now(), Start(), source, docs, 0, targets, sourceHash, 0,
                          targets)
    {
      NothingRepointed(rows, targets, sourceHash);
      CountsNothing(rows, docs[..0]);
      EmptyGroup(Now(), Start(), source, targets);
      assert docs[..0] == [];
    }

    lemma RowsGoOn(first: World, between: World, source: string, docs: seq<Doc>, n: nat,
                   targets0: map<CompanyId, TargetState>, sourceHash: Digest, migrated: nat,
                   targets: map<CompanyId, TargetState>, migrated': nat, targets': map<CompanyId, TargetState>)
      requires |history| > 0 && n < |docs| && Bounded(between) && Evolves(between, Now(), {docs[n].id}, {})
      requires settled ==> reliable && isolated
      requires RowsReached(reliable && isolated, settled, first, between, Start(), source, docs, n, targets0,
                           sourceHash, migrated, targets)
      requires IsNext(Now(), source, docs[n], migrated, targets, migrated', targets')
      requires NoLoss(between, Now())
      requires settled ==> IsSettledNext(Now(), Start(), source, docs[n], migrated, targets, migrated')
      requires forall d | d in docs :: d.id < between.nextId && (d.id == docs[n].id ==> d == docs[n])
      requires reliable && isolated ==>
                 && first.rows.Keys == between.rows.Keys == rows.Keys && docs[n].id in rows && IsCandidate(docs[n].row)
                 && var agrees := Agrees(docs[n], targets0, sourceHash);
                 && rows == (if agrees then between.rows[docs[n].id := Moved(docs[n].row)] else between.rows)
                 && migrated' == migrated + (if agrees then 1 else 0)
      ensures RowsReached(reliable && isolated, settled, first, Now(), Start(), source, docs, n + 1, targets0,
                          sourceHash, migrated', targets')
    {
      hide AreRehomed, IsNext, IsSettledNext, IsSettledGroup, Evolves, Run.AreRepointed, Run.Agrees, Run.Counts;
      hide IsCandidate, Moved, Bounded, NoLoss, Run.AreUsed;
      assert docs[..n + 1] == docs[..n] + [docs[n]];
      GroupGrows(between, Now(), source, docs[..n], docs[n], migrated, targets, migrated', targets');
      if settled {
        SettledGroupGrows(between, Now(), Start(), source, docs[..n], docs[n], migrated, targets, migrated', targets');
      }
      if reliable && isolated {
        CountsOneMore(first.rows, between.rows, rows, docs, n, targets0, sourceHash, migrated);
        RepointedOneMore(first.rows, between.rows, rows, docs[..n], docs[n], targets0, sourceHash, migrated, migrated');
        UsedOneMore(between, Now(), source, docs, n, migrated, targets, migrated', targets');
      }
    }

    /** Step 5 for every row on the key. */
    method RepointRows(source: string, sourceHash: Digest, docs: seq<Doc>, targets0: map<CompanyId, TargetState>)
      returns (c: Call<(nat, map<CompanyId, TargetState>)>)
      requires Valid()
      requires source in objects && Sha256(objects[source]) == sourceHash
      requires IsGroupAt(source, docs) && AreCopies(Now(), source, docs, targets0)
      requires reliable && isolated ==> forall d | d in docs :: d.row.company.value in targets0
      requires forall company | company in targets0 :: targets0[company].repointed == 0
      modifies this`rows, this`objects, this`nextId, this`history, this`failures
      ensures Valid() && Start() == old(Start()) && old(history) <= history && old(failures) <= failures
      ensures Evolves(old(Now()), Now(), Ids(docs), {})
      ensures isolated ==> rows.Keys == old(rows.Keys) && objects == old(objects)
      ensures c.Done? ==> c.value.0 <= |docs| && AreCopies(Now(), source, docs, c.value.1)
      ensures c.Done? ==> AreSameCopies(targets0, c.value.1)
      ensures reliable && isolated ==> c.Done? && AreRepointed(old(rows), rows, docs, targets0, sourceHash, c.value.0)
      ensures reliable && isolated ==> Counts(old(rows), rows, docs, c.value.0) && AreUsed(Now(), docs, c.value.1)
      ensures reliable && isolated && c.value.0 == |docs| ==> failures == old(failures)
      ensures c.Done? ==> |failures| + c.value.0 + Unserved(docs, targets0) == |old(failures)| + |docs|
      ensures c.Done? && c.value.0 == |docs| ==> AreRehomed(Now(), docs)
      ensures settled ==> c.Done? && IsSettledGroup(Now(), Start(), source, docs, c.value.0, c.value.1)
    {
      hide Run.AreUsed, NoLoss, Unserved, IsServed;
      hide Run.Recorded, Run.Tracking, Run.RootedAt, Segregated, AreCopies, IsNext, IsSettledNext, IsSettledGroup;
      hide AreRehomed;
      hide Run.AreRepointed, Run.AreSameCopies, Run.Agrees, Run.Counts, Run.RowsReached;
      var migratedRows: nat, targets := 0, targets0;
      NoRowReached(source, docs, targets, sourceHash);
      NoneUnserved(docs, targets);
      SameCopiesAsThese(targets);
      for n := 0 to |docs|
        invariant Valid() && Start() == old(Start()) && old(history) <= history && old(failures) <= failures
        invariant Evolves(old(Now()), Now(), Ids(docs), {})
        invariant isolated ==> rows.Keys == old(rows.Keys) && objects == old(objects)
        invariant AreSameCopies(targets0, targets) && AreCopies(Now(), source, docs, targets)
        invariant RowsReached(reliable && isolated, settled, old(Now()), Now(), Start(), source, docs, n, targets0,
                              sourceHash, migratedRows, targets)
        invariant migratedRows <= n
        invariant reliable && isolated && migratedRows == n ==> failures == old(failures)
        invariant |failures| + migratedRows + Unserved(docs[..n], targets0) == |old(failures)| + n
      {
        ghost var between, earlier := Now(), history;
        KnownIds(source, docs);
        SameCopiesAgree(targets0, targets, docs[n], sourceHash);
        var next :- RepointNext(source, sourceHash, docs, docs[n], migratedRows, targets);
        EvolvesIsTransitive(old(Now()), between, Now(), Ids(docs), {});
        HistoryKeeps(earlier);
        RowsGoOn(old(Now()), between, source, docs, n, targets0, sourceHash, migratedRows, targets, next.0, next.1);
        UnservedOneMore(docs, n, targets0);
        NextIsNoLess(Now(), source, docs[n], migratedRows, targets, next.0, next.1);
        SameCopiesFollow(targets0, targets, next.1);
        migratedRows, targets := next.0, next.1;
      }
      assert docs[..|docs|] == docs;
      AllRowsReached(old(Now()), source, docs, targets0, sourceHash, migratedRows, targets);
      c := Done((migratedRows, targets));
    }

    lemma NoneUnserved(docs: seq<Doc>, targets: map<CompanyId, TargetState>)
      ensures Unserved(docs[..0], targets) == 0
    {
    }

    lemma UnservedOneMore(docs: seq<Doc>, n: nat, targets: map<CompanyId, TargetState>)
      requires n < |docs|
      ensures Unserved(docs[..n + 1], targets) ==
                Unserved(docs[..n], targets) + if IsServed(docs[n], targets) then 0 else 1
    {
      assert docs[..n + 1][..n] == docs[..n];
    }

    lemma NextIsNoLess(w: World, source: string, doc: Doc, migrated: nat, targets: map<CompanyId, TargetState>,
                       migrated': nat, targets': map<CompanyId, TargetState>)
      requires IsNext(w, source, doc, migrated, targets, migrated', targets')
      ensures migrated <= migrated' <= migrated + 1
    {
    }

    lemma AllRowsReached(first: World, source: string, docs: seq<Doc>, targets0: map<CompanyId, TargetState>,
                         sourceHash: Digest, migrated: nat, targets: map<CompanyId, TargetState>)
      requires |history| > 0
      requires RowsReached(reliable && isolated, settled, first, Now(), Start(), source, docs, |docs|, targets0,
                           sourceHash, migrated, targets)
      ensures reliable && isolated ==>
                && AreRepointed(first.rows, rows, docs, targets0, sourceHash, migrated)
                && Counts(first.rows, rows, docs, migrated) && AreUsed(Now(), docs, targets)
      ensures migrated == |docs| ==> AreRehomed(Now(), docs)
      ensures settled ==> IsSettledGroup(Now(), Start(), source, docs, migrated, targets)
    {
      assert docs[..|docs|] == docs;
    }

    lemma SameCopiesAsThese(targets: map<CompanyId, TargetState>)
      ensures AreSameCopies(targets, targets)
    {
    }

    lemma NothingRepointed(rows: map<nat, Row>, targets: map<CompanyId, TargetState>, sourceHash: Digest)
      ensures AreRepointed(rows, rows, [], targets, sourceHash, 0) && AreSameCopies(targets, targets)
    {
    }

    lemma SameCopiesAgree(a: map<CompanyId, TargetState>, b: map<CompanyId, TargetState>, doc: Doc, sourceHash: Digest)
      requires AreSameCopies(a, b)
      ensures Agrees(doc, a, sourceHash) == Agrees(doc, b, sourceHash) && a.Keys == b.Keys
      ensures IsServed(doc, a) == IsServed(doc, b)
    {
    }

    lemma SameCopiesFollow(a: map<CompanyId, TargetState>, b: map<CompanyId, TargetState>,
                           c: map<CompanyId, TargetState>)
      requires AreSameCopies(a, b) && AreSameCopies(b, c)
      ensures AreSameCopies(a, c)
    {
    }

    lemma OwnCopiesStay(start: World, a: map<CompanyId, TargetState>, b: map<CompanyId, TargetState>)
      requires AreSameCopies(a, b) && AreOwnCopies(start, a)
      ensures AreOwnCopies(start, b)
    {
    }

    /** Nothing intact is lost between an earlier point of the history and now. */
    lemma HistoryKeeps(earlier: seq<World>)
      requires Valid() && |earlier| > 0 && earlier <= history
      ensures NoLoss(earlier[|earlier| - 1], Now())
    {
      NothingIsLostLater(history, |earlier| - 1, |history| - 1);
    }

    /** Removes one scoped copy of this run, unless the live table references it. Failures are only logged. */
    method RollBackCopy(key: string)
      requires Valid()
      requires key in objects && IsDue(key, objects[key])
      requires keyed ==> key !in Start().objects
      modifies this`rows, this`objects, this`nextId, this`history
      ensures Valid() && Start() == old(Start()) && old(history) <= history
      ensures Evolves(old(Now()), Now(), {}, {key})
      ensures isolated ==> rows == old(rows) && (objects == old(objects) || objects == old(objects) - {key})
      ensures reliable && isolated && key in objects ==> References(Now(), key)
    {
      hide Run.Recorded, Run.Tracking, Run.RootedAt, Segregated;
      ghost var before := Now();
      ghost var id :| id in fetched && IsCandidate(fetched[id]) && Target(fetched[id]) == key
                      && fetched[id].path.value in objects && objects[fetched[id].path.value] == objects[key];
      var referenced := PathStillReferenced(key);
      if referenced.Threw? || referenced.value {
        return;
      }
      RelyKeepsObject(before, Now(), key);
      RelyKeepsObject(before, Now(), fetched[id].path.value);
      assert IsRemovable(key) by {
        DueCopyIsRemovable(key);
      }
      var _ := Remove(key);
    }

    lemma DueCopyIsRemovable(key: string)
      requires Valid() && key in objects && IsDue(key, objects[key]) && !References(Now(), key)
      requires keyed ==> key !in Start().objects
      ensures IsRemovable(key)
    {
      hide Run.Recorded, Run.RootedAt;
      assert IsTargetKey(key);
      if keyed {
        TargetIsNoLegacyKey(key);
        var id :| id in fetched && IsCandidate(fetched[id]) && Target(fetched[id]) == key
                  && fetched[id].path.value in objects && objects[fetched[id].path.value] == objects[key];
        assert rows[id] == fetched[id];
        assert Migrates(Now(), id);
      }
    }

    /** Rolls back every copy of this run that no row ended up pointing at. */
    method RollBackUnusedCopies(source: string, docs: seq<Doc>, companies: seq<Group<CompanyId, Doc>>,
                                targets: map<CompanyId, TargetState>)
      requires Valid() && IsGroupAt(source, docs)
      requires IsGroupedBy(docs, CompanyOf, companies) && AreCopies(Now(), source, docs, targets)
               && AreOwnCopies(Start(), targets)
      requires settled ==> forall company | company in targets ::
                 targets[company].uploadedThisRun ==> targets[company].repointed > 0
      modifies this`rows, this`objects, this`nextId, this`history
      ensures Valid() && Start() == old(Start()) && old(history) <= history
      ensures Evolves(old(Now()), Now(), {}, TargetPaths(targets))
      ensures isolated ==> rows == old(rows) && forall k | k in objects :: k in old(objects)
      ensures reliable && isolated ==> AreRolledBack(Now(), targets)
      ensures settled ==> Now() == old(Now())
    {
      hide Run.Recorded, Run.Tracking, Run.RootedAt, Segregated, AreCopies, IsGroupedBy, References, Run.IsRolledBack;
      ghost var before := Now();
      SourceIsNoTarget(before, source, docs, targets);
      CompaniesAreApart(docs, companies);
      CopiesArePresent(before, source, docs, targets);
      for n := 0 to |companies|
        invariant Valid() && Start() == old(Start()) && old(history) <= history
        invariant Evolves(before, Now(), {}, TargetPaths(targets))
        invariant isolated ==> rows == old(rows) && forall k | k in objects :: k in old(objects)
        invariant settled ==> Now() == old(Now())
        invariant reliable && isolated ==>
                    forall j | 0 <= j < n && companies[j].key in targets ::
                      IsRolledBack(Now(), targets[companies[j].key])
        invariant forall j | n <= j < |companies| && companies[j].key in targets ::
                    var key := targets[companies[j].key].targetPath;
                    key in objects && key in before.objects && objects[key] == before.objects[key]
      {
        var company := companies[n].key;
        NothingToRollBack(targets, company);
        if company !in targets || !targets[company].uploadedThisRun || targets[company].repointed > 0 {
          continue;
        }
        ghost var between := Now();
        var key := targets[company].targetPath;
        CopyIsDue(before, source, docs, targets, company);
        assert IsOwnCopy(Start(), targets[company]);
        RollBackCopy(key);
        EvolvesIsTransitive(before, between, Now(), {}, TargetPaths(targets));
        CopiesAreDistinct(before, source, docs, targets, company);
        if reliable && isolated {
          RolledBackStay(between, companies, n, targets);
        }
      }
      if reliable && isolated {
        EveryCompanyIsListed(before, source, docs, companies, targets);
      }
    }

    /** A copy of this run that no row was repointed to is gone, unless some row points at it. */
    static ghost predicate IsRolledBack(w: World, t: TargetState) {
      t.uploadedThisRun && t.repointed == 0 && t.targetPath in w.objects ==> References(w, t.targetPath)
    }

    static ghost predicate AreRolledBack(w: World, targets: map<CompanyId, TargetState>) {
      forall company | company in targets :: IsRolledBack(w, targets[company])
    }

    lemma NothingToRollBack(targets: map<CompanyId, TargetState>, company: CompanyId)
      ensures company in targets && (!targets[company].uploadedThisRun || targets[company].repointed > 0) ==>
                IsRolledBack(Now(), targets[company])
    {
    }

    lemma RolledBackStay(between: World, companies: seq<Group<CompanyId, Doc>>, n: nat,
                         targets: map<CompanyId, TargetState>)
      requires n < |companies| && companies[n].key in targets
      requires forall j | 0 <= j < n && companies[j].key in targets :: IsRolledBack(between, targets[companies[j].key])
      requires rows == between.rows
      requires var key := targets[companies[n].key].targetPath;
               && (objects == between.objects || objects == between.objects - {key})
               && (key in objects ==> References(Now(), key))
      ensures forall j | 0 <= j < n + 1 && companies[j].key in targets ::
                IsRolledBack(Now(), targets[companies[j].key])
    {
    }

    lemma EveryCompanyIsListed(w: World, source: string, docs: seq<Doc>, companies: seq<Group<CompanyId, Doc>>,
                               targets: map<CompanyId, TargetState>)
      requires AreCopies(w, source, docs, targets) && IsGroupedBy(docs, CompanyOf, companies)
      ensures forall company | company in targets :: exists j :: 0 <= j < |companies| && companies[j].key == company
    {
      forall company | company in targets
        ensures exists j :: 0 <= j < |companies| && companies[j].key == company
      {
        var d :| d in docs && d.row.company == Some(company);
        assert CompanyOf(d).Some?;
      }
    }

    lemma CompaniesAreApart(docs: seq<Doc>, companies: seq<Group<CompanyId, Doc>>)
      requires IsGroupedBy(docs, CompanyOf, companies)
      ensures forall i, j | 0 <= i < j < |companies| :: companies[i].key != companies[j].key
    {
    }

    lemma CopiesArePresent(w: World, source: string, docs: seq<Doc>, targets: map<CompanyId, TargetState>)
      requires AreCopies(w, source, docs, targets)
      ensures forall company | company in targets :: targets[company].targetPath in w.objects
    {
      forall company | company in targets
        ensures targets[company].targetPath in w.objects
      {
        EachIsCopied(w, source, docs, targets, company);
      }
    }

    /** A copy uploaded by this run, and not rolled back, is still the bytes of its source. */
    lemma CopyIsDue(before: World, source: string, docs: seq<Doc>, targets: map<CompanyId, TargetState>,
                    company: CompanyId)
      requires IsGroupAt(source, docs) && AreCopies(before, source, docs, targets) && company in targets
      requires targets[company].uploadedThisRun && source !in TargetPaths(targets)
      requires Evolves(before, Now(), {}, TargetPaths(targets))
      requires var key := targets[company].targetPath;
               key in objects && key in before.objects && objects[key] == before.objects[key]
      ensures IsDue(targets[company].targetPath, objects[targets[company].targetPath])
    {
      CopyHasARow(before, source, docs, targets, company);
      EachIsCopied(before, source, docs, targets, company);
      var d :| d in docs && d.row.company == Some(company);
      assert d.id in fetched && fetched[d.id].path == Some(source);
    }

    lemma CopyHasARow(w: World, source: string, docs: seq<Doc>, targets: map<CompanyId, TargetState>,
                      company: CompanyId)
      requires IsGroupAt(source, docs) && AreCopies(w, source, docs, targets) && company in targets
      ensures IsTargetKey(targets[company].targetPath)
    {
      assert IsCopied(w, source, company, targets[company]);
      var d :| d in docs && d.row.company == Some(company);
      assert d.id in fetched && IsCandidate(fetched[d.id]) && Target(fetched[d.id]) == targets[company].targetPath;
    }

    /** The group's rows are as they were fetched. */
    static ghost predicate AreFresh(rows: map<nat, Row>, docs: seq<Doc>) {
      forall d | d in docs :: d.id in rows && rows[d.id] == d.row
    }

    /** On a quiet table with reliable calls: exactly the rows that pass were moved, and counted. */
    ghost predicate AreMoved(before: World, after: map<nat, Row>, docs: seq<Doc>, migrated: nat) {
      && (forall d | d in docs && IsCandidate(d.row) ::
            d.id in after && after[d.id] == if Passes(before, d.id) then Moved(d.row) else d.row)
      && migrated <= |docs|
      && (migrated == |docs| <==> forall d | d in docs :: Passes(before, d.id))
    }

    /** Every new object is a copy that this run uploaded. */
    static ghost predicate AreUploads(before: map<string, Bytes>, after: map<string, Bytes>,
                                      targets: map<CompanyId, TargetState>) {
      forall k | k in after && k !in before ::
        exists company | company in targets :: targets[company].targetPath == k && targets[company].uploadedThisRun
    }

    lemma MadeAreUploads(before: map<string, Bytes>, after: map<string, Bytes>, bytes: Bytes,
                         targets: map<CompanyId, TargetState>, targets': map<CompanyId, TargetState>)
      requires AreMade(before, after, bytes, targets) && AreSameCopies(targets, targets')
      ensures AreUploads(before, after, targets')
    {
      forall k | k in after && k !in before
        ensures exists company | company in targets' ::
                  targets'[company].targetPath == k && targets'[company].uploadedThisRun
      {
        var company :| company in targets && targets[company].targetPath == k;
        assert targets'[company].(repointed := targets[company].repointed) == targets[company];
      }
    }

    /** Steps 3 to 5 for a group whose source was downloaded, up to the rollback. */
    method CopyThenRepoint(source: string, bytes: Bytes, docs: seq<Doc>, companies: seq<Group<CompanyId, Doc>>)
      returns (c: Call<(nat, map<CompanyId, TargetState>)>)
      requires Valid()
      requires source in objects && objects[source] == bytes && IsGroupAt(source, docs)
      requires IsGroupedBy(docs, CompanyOf, companies)
      modifies this`rows, this`objects, this`nextId, this`history, this`failures
      ensures Valid() && Start() == old(Start()) && old(history) <= history && old(failures) <= failures
      ensures source in objects && objects[source] == bytes
      ensures isolated ==> rows.Keys == old(rows.Keys)
                           && forall id | id in rows && id !in Ids(docs) :: rows[id] == old(rows[id])
      ensures isolated ==> forall k | k in objects :: k in old(objects) || k in TargetsOf(docs)
      ensures isolated ==> forall k | k in old(objects) :: k in objects
      ensures c.Done? ==> c.value.0 <= |docs| && AreCopies(Now(), source, docs, c.value.1)
                          && AreOwnCopies(Start(), c.value.1)
      ensures c.Done? && c.value.0 == |docs| ==> AreRehomed(Now(), docs)
      ensures reliable && isolated && AreFresh(old(rows), docs) ==>
                c.Done? && AreMoved(old(Now()), rows, docs, c.value.0)
      ensures reliable && isolated ==> c.Done? && Counts(old(rows), rows, docs, c.value.0)
      ensures reliable && isolated && c.value.0 == |docs| ==> failures == old(failures)
      ensures c.Done? ==> |failures| + c.value.0 == |old(failures)| + |docs|
      ensures reliable && isolated ==> AreUsed(Now(), docs, c.value.1) && AreUploads(old(objects), objects, c.value.1)
      ensures settled ==> c.Done? && IsSettledGroup(Now(), Start(), source, docs, c.value.0, c.value.1)
    {
      hide Run.Counts, Run.AreUsed, Run.AreUploads;
      hide Run.Recorded, Run.Tracking, Run.RootedAt, Segregated, AreCopies, AreRehomed, IsSettledGroup;
      hide IsGroupedBy, SameGoal, Ready, Bounded, TargetsOf, AreMade, Run.AreRepointed, Run.AreSameCopies, Run.AreMoved;
      hide NoLoss, Run.AreOwnCopies, Run.IsGroupAt, Run.AreFresh, Content;
      ghost var first := Now();
      var targets :- CopyToCompanies(source, bytes, docs, companies);
      ghost var copied := Now();
      var repointed :- RepointRows(source, Sha256(bytes), docs, targets);
      OwnCopiesStay(Start(), targets, repointed.1);
      if reliable && isolated && AreFresh(first.rows, docs) {
        AgreedRowsPass(first, copied, source, bytes, docs, targets, rows, repointed.0);
      }
      if reliable && isolated {
        MadeAreUploads(first.objects, objects, bytes, targets, repointed.1);
      }
      c := Done(repointed);
    }

    /** Steps 3 to 5 with the rollback of unused copies; returns how many rows were migrated. */
    method CopyAndRepoint(source: string, bytes: Bytes, docs: seq<Doc>) returns (c: Call<nat>)
      requires Valid()
      requires source in objects && objects[source] == bytes && IsGroupAt(source, docs)
      modifies this`rows, this`objects, this`nextId, this`history, this`failures
      ensures Valid() && Start() == old(Start()) && old(history) <= history && old(failures) <= failures
      ensures source in objects && objects[source] == bytes
      ensures isolated ==> rows.Keys == old(rows.Keys)
                           && forall id | id in rows && id !in Ids(docs) :: rows[id] == old(rows[id])
      ensures isolated ==> forall k | k in objects :: k in old(objects) || k in TargetsOf(docs)
      ensures isolated ==> forall k | k in old(objects) && k !in TargetsOf(docs) :: k in objects
      ensures c.Done? ==> c.value <= |docs|
      ensures c.Done? && c.value == |docs| ==> AreRehomed(Now(), docs)
      ensures reliable && isolated && AreFresh(old(rows), docs) ==> c.Done? && AreMoved(old(Now()), rows, docs, c.value)
      ensures reliable && isolated ==> c.Done? && Counts(old(rows), rows, docs, c.value)
      ensures reliable && isolated && c.value == |docs| ==> failures == old(failures)
      ensures reliable && isolated ==> NewAreReferenced(old(Now()), Now())
      ensures c.Done? ==> |failures| + c.value == |old(failures)| + |docs|
      ensures settled ==> c.Done? && AreFinal(Now(), Start(), docs) && (c.value < |docs| ==> References(Now(), source))
    {
      hide Run.Counts, Run.AreUsed, Run.AreUploads, Run.AreRolledBack, Run.NewAreReferenced;
      hide Run.Recorded, Run.Tracking, Run.RootedAt, Segregated, AreCopies, AreRehomed, AreFinal, IsSettledGroup;
      hide IsGroupedBy, Bounded, TargetsOf, Run.AreMoved, NoLoss, Run.AreOwnCopies, TargetPaths, Run.IsGroupAt, Content;
      hide References, Run.AreFresh;
      ghost var first := Now();
      var companies := GroupBy(docs, CompanyOf);
      var repointed :- CopyThenRepoint(source, bytes, docs, companies);
      ghost var between, earlier := Now(), history;
      KnownIds(source, docs);
      if settled {
        EveryCopyIsUsed(between, Start(), source, docs, repointed.0, repointed.1);
      }
      SourceIsNoTarget(between, source, docs, repointed.1);
      TargetPathsOfGroup(between, source, docs, repointed.1);
      RollBackUnusedCopies(source, docs, companies, repointed.1);
      HistoryKeeps(earlier);
      if repointed.0 == |docs| {
        RehomedStay(between, Now(), docs);
      }
      if reliable && isolated {
        UploadsAreReferenced(first, between, source, docs, repointed.1);
      }
      c := Done(repointed.0);
    }

    /** An object that was not there before has a row that points at it. */
    static ghost predicate NewAreReferenced(before: World, after: World) {
      forall k | k in after.objects && k !in before.objects :: References(after, k)
    }

    lemma UploadsAreReferenced(first: World, between: World, source: string, docs: seq<Doc>,
                               targets: map<CompanyId, TargetState>)
      requires AreUploads(first.objects, between.objects, targets) && AreUsed(between, docs, targets)
      requires AreCopies(between, source, docs, targets) && IsGroupAt(source, docs)
      requires AreRolledBack(Now(), targets) && rows == between.rows
      requires forall k | k in objects :: k in between.objects
      ensures NewAreReferenced(first, Now())
    {
      hide References;
      forall k | k in objects && k !in first.objects
        ensures References(Now(), k)
      {
        var company :| company in targets && targets[company].targetPath == k && targets[company].uploadedThisRun;
        assert IsRolledBack(Now(), targets[company]);
        if targets[company].repointed > 0 {
          var d :| d in docs && d.row.company == Some(company) && IsRehomed(between, d);
          EachIsCopied(between, source, docs, targets, company);
          PointsAt(d.id, k);
        }
      }
    }

    lemma PointsAt(id: nat, key: string)
      requires id in rows && rows[id].path == Some(key)
      ensures References(Now(), key)
    {
    }

    lemma TargetPathsOfGroup(w: World, source: string, docs: seq<Doc>, targets: map<CompanyId, TargetState>)
      requires IsGroupAt(source, docs) && AreCopies(w, source, docs, targets)
      ensures TargetPaths(targets) <= TargetsOf(docs)
    {
      forall company | company in targets
        ensures targets[company].targetPath in TargetsOf(docs)
      {
        EachIsCopied(w, source, docs, targets, company);
        var d :| d in docs && d.row.company == Some(company);
        assert Target(d.row) == targets[company].targetPath;
      }
    }

    /** A row's copy agrees with its hash exactly when the row passes in the world before the copies were made. */
    lemma AgreedRowsPass(first: World, copied: World, source: string, bytes: Bytes, docs: seq<Doc>,
                         targets: map<CompanyId, TargetState>, after: map<nat, Row>, migrated: nat)
      requires IsGroupAt(source, docs) && AreFresh(first.rows, docs)
      requires source in first.objects && first.objects[source] == bytes
      requires copied.rows == first.rows && AreMade(first.objects, copied.objects, bytes, targets)
      requires AreCopies(copied, source, docs, targets)
      requires forall d | d in docs :: d.row.company.value in targets
      requires AreRepointed(copied.rows, after, docs, targets, Sha256(bytes), migrated)
      ensures AreMoved(first, after, docs, migrated)
    {
      forall d | d in docs
        ensures Agrees(d, targets, Sha256(bytes)) == Passes(first, d.id)
      {
        var company := d.row.company.value;
        EachIsCopied(copied, source, docs, targets, company);
        assert Target(d.row) == targets[company].targetPath;
      }
    }

    lemma MissingSourceIsFinal(source: string, docs: seq<Doc>)
      requires Valid() && settled && IsGroupAt(source, docs) && source !in objects
      ensures AreFinal(Now(), Start(), docs)
    {
      assert Ready(Now()) && SameGoal(history[0], Now(), options.deleteSource);
      forall d | d in docs
        ensures d.id in rows && d.id in Start().rows && rows[d.id] == FinalRow(Start(), d.id)
      {
        MovedIsScoped(d.row);
        assert IsPlaced(rows[d.id]) && Content(Now(), d.id).Some?;
        assert FinalRow(Now(), d.id) == FinalRow(Start(), d.id);
      }
    }

    /** A key that a row outside the candidates, or a row in its final place, points at is not abandoned. */
    lemma ReferencedIsNotAbandoned(key: string)
      requires Valid() && settled && References(Now(), key)
      requires forall id | id in rows && IsCandidate(rows[id]) && rows[id].path == Some(key) ::
                 id in Start().rows && rows[id] == FinalRow(Start(), id)
      ensures !IsAbandoned(Start(), key)
    {
      assert Ready(Now()) && SameGoal(history[0], Now(), options.deleteSource);
      var id :| id in rows && rows[id].path == Some(key);
      assert FinalRow(Now(), id) == FinalRow(Start(), id);
    }

    /** Once every row of a complete group is rehomed and no row is at the source, no row depends on it any more. */
    lemma RehomedGroupIsSpared(source: string, docs: seq<Doc>)
      requires Valid() && covered && options.deleteSource && docs != []
      requires IsGroupAt(source, docs) && IsCompleteGroup(source, docs)
      requires AreRehomed(Now(), docs) && !References(Now(), source)
      ensures Spared(Now(), source)
    {
      hide Run.Recorded, Segregated, Content;
      var leaving := docs[0];
      assert Known(leaving) && Start().rows[leaving.id] == leaving.row;
      forall id | id in rows && IsPlaced(rows[id]) && LegacyKey(rows[id]) == source && Serves(Now(), rows[id], source)
        ensures Content(Now(), id).Some?
      {
        assert IsScoped(rows[id]);
        if id in fetched && IsCandidate(fetched[id]) {
          MovedIsScoped(fetched[id]);
          assert id in Ids(docs);
          var d :| d in docs && d.id == id;
          assert IsRehomed(Now(), d);
        } else {
          MovedIsScoped(leaving.row);
          LegacyObjectIsOriginal(leaving.id);
          IntactStragglerStays(id, leaving.id);
        }
      }
    }

    /** A scoped row that shares its legacy key with a row to be moved is still served from its own key. */
    lemma IntactStragglerStays(id: nat, other: nat)
      requires Valid() && covered && options.deleteSource
      requires id in rows && id in Start().rows && rows[id] == Start().rows[id] && IsScoped(rows[id])
      requires other in Start().rows && Matches(Start().rows[other], options.onlyCompany)
      requires || (IsCandidate(Start().rows[other]) && Start().rows[other].path.value == LegacyKey(rows[id]))
               || (IsScoped(Start().rows[other]) && LegacyKey(Start().rows[other]) == LegacyKey(rows[id])
                   && !Matches(rows[id], options.onlyCompany))
      requires Serves(Start(), rows[id], LegacyKey(rows[id]))
      ensures Content(Now(), id).Some?
    {
      assert NoBrokenStragglers(Start(), options.onlyCompany);
      assert !IsBroken(Start(), id);
      NothingIsLostLater(history, 0, |history| - 1);
      assert KeepsRow(Start(), Now(), id);
    }

    /** On a quiet table the fetch has seen every row of the layout that the filter selects. */
    ghost predicate AllSelectedFetched()
      reads this`rows, this`fetched
    {
      forall id | id in rows && IsPlaced(rows[id]) && Matches(rows[id], options.onlyCompany) :: id in fetched
    }

    /** No other fetched row points at the source to be moved away from it. */
    ghost predicate IsCompleteGroup(source: string, docs: seq<Doc>)
      reads this`fetched
    {
      isolated ==>
        forall id | id in fetched && IsCandidate(fetched[id]) && fetched[id].path == Some(source) :: id in Ids(docs)
    }

    lemma CompleteGroupInTable(source: string, docs: seq<Doc>)
      requires Valid() && isolated && AllSelectedFetched() && IsCompleteGroup(source, docs)
      ensures forall id | id in rows && IsLeaving(Now(), id, source, options.onlyCompany) :: id in Ids(docs)
    {
      hide Run.Recorded, Run.RootedAt;
      forall id | id in rows && IsLeaving(Now(), id, source, options.onlyCompany)
        ensures id in fetched && rows[id] == fetched[id]
      {
        if IsCandidate(fetched[id]) {
          MovedIsScoped(fetched[id]);
        }
      }
    }

    lemma StillAllFetched(earlier: map<nat, Row>, docs: seq<Doc>)
      requires forall id | id in earlier && IsPlaced(earlier[id]) && Matches(earlier[id], options.onlyCompany) ::
                id in fetched
      requires rows.Keys == earlier.Keys && forall id | id in rows && id !in Ids(docs) :: rows[id] == earlier[id]
      requires forall d | d in docs :: d.id in fetched
      ensures AllSelectedFetched()
    {
    }

    /** Step 6, strictly last: the source goes once every row on it is rehomed and the live table agrees. */
    method RemoveMigratedSource(source: string, docs: seq<Doc>) returns (c: Call<bool>)
      requires Valid() && docs != [] && IsGroupAt(source, docs) && IsCompleteGroup(source, docs)
      requires isolated ==> AllSelectedFetched()
      requires options.deleteSource && source in objects && AreRehomed(Now(), docs)
      requires settled ==> AreFinal(Now(), Start(), docs)
      modifies this`rows, this`objects, this`nextId, this`history
      ensures Valid() && Start() == old(Start()) && old(history) <= history
      ensures isolated ==> rows == old(rows) && forall k | k in objects :: k in old(objects)
      ensures AreRehomed(Now(), docs)
      ensures isolated ==> forall k | k in old(objects) && k != source :: k in objects
      ensures c == Done(true) ==> source !in objects
      ensures reliable && isolated ==> c.Done? && (source in objects <==> References(Now(), source))
      ensures reliable && isolated ==> (c.value <==> source !in objects)
      ensures settled ==>
                c.Done? && AreFinal(Now(), Start(), docs) && (source in objects ==> !IsAbandoned(Start(), source))
    {
      hide Run.Recorded, Run.Tracking, Run.RootedAt, Segregated, AreRehomed, Spared, Run.IsCompleteGroup;
      hide Run.AllSelectedFetched;
      hide IsAbandoned, IsLegacyKeyOfARow, AreFinal;
      ghost var before, earlier := Now(), history;
      KnownIds(source, docs);
      if keyed {
        GroupMapsToItsSource(source, docs);
      }
      if covered && !References(Now(), source) {
        RehomedGroupIsSpared(source, docs);
      }
      c := RemoveLegacySourceIfUnreferenced(source);
      HistoryKeeps(earlier);
      RehomedStay(before, Now(), docs);
      if settled {
        FinalStay(before, Now(), Start(), docs);
        if References(Now(), source) {
          FinalGroupIsNotAbandoned(source, docs);
        }
      }
    }

    lemma FinalGroupIsNotAbandoned(source: string, docs: seq<Doc>)
      requires Valid() && settled && IsGroupAt(source, docs) && IsCompleteGroup(source, docs) && AllSelectedFetched()
      requires AreFinal(Now(), Start(), docs) && References(Now(), source)
      ensures !IsAbandoned(Start(), source)
    {
      CompleteGroupInTable(source, docs);
      forall id | id in rows && IsCandidate(rows[id]) && rows[id].path == Some(source)
        ensures id in Start().rows && rows[id] == FinalRow(Start(), id)
      {
        var d :| d in docs && d.id == id;
      }
      ReferencedIsNotAbandoned(source);
    }

    /** All rows sharing one legacy key, together. A download error fails every row and touches nothing. */
    method MigrateGroup(source: string, docs: seq<Doc>) returns (c: Call<Outcome>)
      requires Valid() && docs != [] && IsGroupAt(source, docs) && IsCompleteGroup(source, docs)
      requires isolated ==> AllSelectedFetched()
      modifies this`rows, this`objects, this`nextId, this`history, this`failures
      ensures Valid() && Start() == old(Start()) && old(history) <= history && old(failures) <= failures
      ensures isolated ==> rows.Keys == old(rows.Keys)
                           && forall id | id in rows && id !in Ids(docs) :: rows[id] == old(rows[id])
      ensures isolated ==> forall k | k in objects :: k in old(objects) || k in TargetsOf(docs)
      ensures isolated ==> forall k | k in old(objects) && k != source && k !in TargetsOf(docs) :: k in objects
      ensures reliable && isolated && AreFresh(old(rows), docs) ==>
                && c.Done? && AreMoved(old(Now()), rows, docs, c.value.migratedRows)
                && (source in objects <==>
                      source in old(objects)
                      && !(options.deleteSource && c.value.failedRows == 0 && !References(Now(), source)))
      ensures reliable && isolated ==>
                && c.Done? && Counts(old(rows), rows, docs, c.value.migratedRows)
                && (c.value.sourceRemoved <==> c.value.failedRows == 0 && source !in objects)
                && (c.value.failedRows == 0 ==> failures == old(failures)) && NewAreReferenced(old(Now()), Now())
      ensures c.Done? ==> c.value.migratedRows + c.value.failedRows == |docs|
      ensures c.Done? ==> |failures| == |old(failures)| + c.value.failedRows
      ensures c.Done? && c.value.failedRows == 0 ==> AreRehomed(Now(), docs)
      ensures c.Done? && c.value.sourceRemoved ==> options.deleteSource && c.value.failedRows == 0 && source !in objects
      ensures settled ==> c.Done? && AreFinal(Now(), Start(), docs)
      ensures settled && options.deleteSource ==> source in objects ==> !IsAbandoned(Start(), source)
    {
      hide Run.Recorded, Run.Tracking, Run.RootedAt, Segregated, AreRehomed, Run.AllSelectedFetched;
      hide Run.IsCompleteGroup;
      hide AreFinal, IsAbandoned, TargetsOf, References, Bounded, NoLoss, Run.AreMoved, Run.AreFresh, Content;
      hide Run.Counts, Rely, Run.IsGroupAt, Run.NewAreReferenced;
      ghost var before, first := rows, Now();
      GroupIsFetched(source, docs);
      if isolated {
        StillAllFetchedAtFirst(docs);
      }
      var blob :- Download(source);
      if blob.None? {
        FailAll(docs, source, DownloadSource);
        if settled {
          MissingSourceIsFinal(source, docs);
        }
        if reliable && isolated && AreFresh(before, docs) {
          NoneMoved(first, source, docs);
        }
        CountsNothing(before, docs);
        if isolated {
          FewerAreReferenced(first, first);
        }
        return Done(Outcome(0, |docs|, false));
      }
      var migratedRows :- CopyAndRepoint(source, blob.value, docs);
      var failedRows := |docs| - migratedRows;
      var sourceRemoved := false;
      ghost var copied := Now();
      if isolated {
        StillAllFetched(before, docs);
      }
      SourceIsNoGroupTarget(source, docs);
      if options.deleteSource && failedRows == 0 {
        sourceRemoved :- RemoveMigratedSource(source, docs);
      } else if settled && References(Now(), source) {
        FinalGroupIsNotAbandoned(source, docs);
      }
      if reliable && isolated {
        FewerAreReferenced(first, copied);
      }
      c := Done(Outcome(migratedRows, failedRows, sourceRemoved));
    }

    /** With the same rows and no new objects, the objects that were not there at first are still referenced. */
    lemma FewerAreReferenced(first: World, between: World)
      requires rows == between.rows && forall k | k in objects :: k in between.objects
      requires between == first || NewAreReferenced(first, between)
      ensures NewAreReferenced(first, Now())
    {
      forall k | k in objects && k !in first.objects
        ensures References(Now(), k)
      {
        assert References(between, k);
      }
    }

    lemma GroupIsFetched(source: string, docs: seq<Doc>)
      requires IsGroupAt(source, docs)
      ensures forall d | d in docs :: d.id in fetched
    {
    }

    lemma NoneMoved(first: World, source: string, docs: seq<Doc>)
      requires docs != [] && IsGroupAt(source, docs) && source !in first.objects && AreFresh(first.rows, docs)
      ensures AreMoved(first, first.rows, docs, 0)
    {
      assert docs[0] in docs && !Passes(first, docs[0].id);
    }

    lemma SourceIsNoGroupTarget(source: string, docs: seq<Doc>)
      requires IsGroupAt(source, docs)
      ensures source !in TargetsOf(docs)
    {
      forall d | d in docs
        ensures Target(d.row) != source
      {
        MovedIsScoped(d.row);
      }
    }

    lemma StillAllFetchedAtFirst(docs: seq<Doc>)
      requires AllSelectedFetched()
      ensures forall id | id in rows && IsPlaced(rows[id]) && Matches(rows[id], options.onlyCompany) :: id in fetched
    {
    }

    lemma GroupMapsToItsSource(source: string, docs: seq<Doc>)
      requires Valid() && isolated && docs != [] && IsGroupAt(source, docs)
      ensures IsLegacyKeyOfARow(Now(), source)
    {
      assert docs[0] in docs;
      MovedIsScoped(docs[0].row);
      assert IsPlaced(rows[docs[0].id]) && LegacyKey(rows[docs[0].id]) == source;
    }

    // ---------------------------------------------------------- the sweep

    /** The already-scoped rows that map to one legacy key. */
    ghost predicate IsScopedGroupAt(legacyKey: string, docs: seq<Doc>)
      reads this`fetched
    {
      forall d | d in docs :: Known(d) && IsScoped(d.row) && LegacyKey(d.row) == legacyKey
    }

    /**
     The hash that a scoped copy must have, and the hash of the legacy bytes, which are read at most once and only
     for a row without a stored hash. Done(None) means they could not be read.
     */
    method ReferenceHash(legacyKey: string, doc: Doc, legacyHash: Option<Digest>)
      returns (c: Call<Option<(Digest, Option<Digest>)>>)
      requires Valid()
      requires legacyHash.Some? ==> legacyKey in objects && legacyHash.value == Sha256(objects[legacyKey])
      modifies this`rows, this`objects, this`nextId, this`history, this`failures
      ensures Valid() && Start() == old(Start()) && old(history) <= history && old(failures) <= failures
      ensures Rely(old(Now()), Now()) && (isolated ==> Now() == old(Now()))
      ensures c.Done? && c.value.Some? ==>
                var (expected, hash) := c.value.value;
                && (hash.Some? ==> legacyKey in objects && hash.value == Sha256(objects[legacyKey]))
                && (if HasHash(doc.row) then expected == doc.row.hash.value else hash == Some(expected))
      ensures reliable && isolated ==> c.Done? && (c.value.Some? <==> HasHash(doc.row) || legacyKey in objects)
      ensures HasHash(doc.row) ==> c.Done? && c.value.Some?
      ensures c.Done? ==> failures == old(failures) + if c.value.Some? then []
                                                      else [Failure(doc.id, legacyKey, SweepDownloadLegacy)]
    {
      hide Run.Recorded, Run.Tracking, Run.RootedAt, Segregated, Bounded;
      if HasHash(doc.row) {
        return Done(Some((doc.row.hash.value, legacyHash)));
      }
      if legacyHash.Some? {
        return Done(Some((legacyHash.value, legacyHash)));
      }
      var legacy :- Download(legacyKey);
      if legacy.None? {
        failures := failures + [Failure(doc.id, legacyKey, SweepDownloadLegacy)];
        return Done(None);
      }
      var hash := Sha256(legacy.value);
      c := Done(Some((hash, Some(hash))));
    }

    /** Reads back one scoped copy and compares it with its reference. Done(None) is a failed check. */
    method VerifyScopedCopy(legacyKey: string, doc: Doc, legacyHash: Option<Digest>)
      returns (c: Call<Option<Option<Digest>>>)
      requires Valid() && Known(doc) && IsScoped(doc.row)
      requires legacyHash.Some? ==> legacyKey in objects && legacyHash.value == Sha256(objects[legacyKey])
      modifies this`rows, this`objects, this`nextId, this`history, this`failures
      ensures Valid() && Start() == old(Start()) && old(history) <= history && old(failures) <= failures
      ensures Rely(old(Now()), Now()) && (isolated ==> Now() == old(Now()))
      ensures c.Done? && c.value.Some? && c.value.value.Some? ==>
                legacyKey in objects && c.value.value.value == Sha256(objects[legacyKey])
      ensures c.Done? && c.value.Some? ==> IsVerified(Now(), doc) && failures == old(failures)
      ensures c == Done(None) ==> |failures| == |old(failures)| + 1
      ensures c.Done? && c.value.Some? && legacyKey in objects ==> SweepPasses(Now(), doc.row, legacyKey)
      ensures reliable && isolated && legacyKey in objects ==>
                c.Done? && (c.value.Some? <==> SweepPasses(Now(), doc.row, legacyKey))
      ensures settled ==> c.Done? && c.value.Some?
    {
      hide Run.Recorded, Run.Tracking, Run.RootedAt, Segregated, Bounded, IsVerified, Content, Rely;
      hide HasHash, IsScoped, LegacyKey;
      ghost var before := Now();
      if settled {
        ReadyRow(doc);
      }
      ScopedRowIsAsFetched(doc);
      var copy :- Download(doc.row.path.value);
      if copy.None? {
        failures := failures + [Failure(doc.id, legacyKey, SweepVerifyReadable)];
        return Done(None);
      }
      ghost var between := Now();
      RelyKeepsLegacy(before, legacyKey, legacyHash);
      var reference := ReferenceHash(legacyKey, doc, legacyHash);
      RelyIsTransitive(before, between, Now());
      RelyKeepsObject(between, Now(), doc.row.path.value);
      var expected :- reference;
      if expected.None? {
        return Done(None);
      }
      if Sha256(copy.value) != expected.value.0 {
        failures := failures + [Failure(doc.id, legacyKey, SweepVerifyHash)];
        return Done(None);
      }
      ScopedRowIsAsFetched(doc);
      CheckedCopyIsContent(doc, copy.value);
      c := Done(Some(expected.value.1));
    }

    lemma RelyKeepsLegacy(before: World, legacyKey: string, legacyHash: Option<Digest>)
      requires Rely(before, Now())
      requires legacyHash.Some? ==> legacyKey in before.objects && legacyHash.value == Sha256(before.objects[legacyKey])
      ensures legacyHash.Some? ==> legacyKey in objects && legacyHash.value == Sha256(objects[legacyKey])
    {
    }

    lemma ScopedRowIsAsFetched(doc: Doc)
      requires Valid() && Known(doc) && IsScoped(doc.row)
      ensures doc.row.path.Some? && (doc.id in rows ==> rows[doc.id] == doc.row)
    {
      hide Run.Recorded, Run.RootedAt, Segregated, Content;
    }

    lemma CheckedCopyIsContent(doc: Doc, bytes: Bytes)
      requires doc.id in rows ==> rows[doc.id] == doc.row
      requires doc.row.path.Some? && doc.row.path.value in objects && objects[doc.row.path.value] == bytes
      requires HasHash(doc.row) ==> doc.row.hash.value == Sha256(bytes)
      ensures IsVerified(Now(), doc)
    {
    }

    lemma ReadyRow(doc: Doc)
      requires Valid() && settled && Known(doc) && IsScoped(doc.row)
      ensures HasHash(doc.row) && doc.row.path.value in objects
      ensures Sha256(objects[doc.row.path.value]) == doc.row.hash.value
    {
      hide Run.RootedAt, SameGoal;
      ReadyNow();
      ScopedRowIsAsFetched(doc);
      assert doc.id in rows && IsPlaced(rows[doc.id]);
    }

    /** Every row mapping to the key must have a readable scoped copy with the expected hash. */
    method VerifyScopedCopies(legacyKey: string, docs: seq<Doc>) returns (c: Call<bool>)
      requires Valid() && IsScopedGroupAt(legacyKey, docs)
      modifies this`rows, this`objects, this`nextId, this`history, this`failures
      ensures Valid() && Start() == old(Start()) && old(history) <= history && old(failures) <= failures
      ensures Rely(old(Now()), Now()) && (isolated ==> Now() == old(Now()))
      ensures c == Done(true) ==> failures == old(failures) && forall d | d in docs :: IsVerified(Now(), d)
      ensures c == Done(false) ==> |failures| == |old(failures)| + 1
      ensures reliable && isolated && legacyKey in objects ==> c == Done(AllPass(Now(), docs, legacyKey))
      ensures settled ==> c == Done(true)
    {
      hide Run.Recorded, Run.Tracking, Run.RootedAt, Segregated, IsVerified, Rely, SweepPasses;
      RelyIsReflexive(Now());
      var legacyHash: Option<Digest> := None;
      for n := 0 to |docs|
        invariant Valid() && Start() == old(Start()) && old(history) <= history && old(failures) <= failures
        invariant Rely(old(Now()), Now()) && (isolated ==> Now() == old(Now()))
        invariant legacyHash.Some? ==> legacyKey in objects && legacyHash.value == Sha256(objects[legacyKey])
        invariant forall d | d in docs[..n] :: IsVerified(Now(), d)
        invariant failures == old(failures)
        invariant reliable && isolated && legacyKey in objects ==> AllPass(Now(), docs[..n], legacyKey)
      {
        ghost var between, earlier := Now(), history;
        assert docs[..n + 1] == docs[..n] + [docs[n]];
        ScopedIds(legacyKey, docs);
        var verified := VerifyScopedCopy(legacyKey, docs[n], legacyHash);
        RelyIsTransitive(old(Now()), between, Now());
        VerifiedStay(between, docs[..n]);
        if verified.Threw? {
          return Threw;
        }
        if verified.value.None? {
          return Done(false);
        }
        legacyHash := verified.value.value;
      }
      assert docs[..|docs|] == docs;
      c := Done(true);
    }

    static ghost predicate AllPass(w: World, docs: seq<Doc>, key: string) {
      forall d | d in docs :: SweepPasses(w, d.row, key)
    }

    /** The sweep of a key whose object is there removes it: every row on it passes, and no row is at the key. */
    static ghost predicate Goes(w: World, docs: seq<Doc>, key: string) {
      AllPass(w, docs, key) && !References(w, key)
    }

    lemma ScopedIds(legacyKey: string, docs: seq<Doc>)
      requires Valid() && IsScopedGroupAt(legacyKey, docs)
      ensures forall d | d in docs :: d.id < nextId
    {
    }

    lemma VerifiedStay(earlier: World, docs: seq<Doc>)
      requires Bounded(earlier) && Rely(earlier, Now())
      requires forall d | d in docs :: IsVerified(earlier, d)
      requires forall d | d in docs :: d.id < earlier.nextId
      ensures forall d | d in docs :: IsVerified(Now(), d)
    {
    }

    /** No other row that was scoped when it was fetched maps to the key. */
    ghost predicate IsCompleteScopedGroup(legacyKey: string, docs: seq<Doc>)
      reads this`fetched
    {
      forall id | id in fetched && IsScoped(fetched[id]) && LegacyKey(fetched[id]) == legacyKey :: id in Ids(docs)
    }

    /** Removes a leftover legacy object once every row mapping to it is verified at its scoped key. */
    method VerifyAndRemove(legacyKey: string, docs: seq<Doc>) returns (c: Call<bool>)
      requires Valid() && docs != [] && IsScopedGroupAt(legacyKey, docs)
      requires isolated ==> AllSelectedFetched()
      requires isolated ==> IsCompleteScopedGroup(legacyKey, docs)
      requires options.deleteSource && legacyKey in objects
      modifies this`rows, this`objects, this`nextId, this`history, this`failures
      ensures Valid() && Start() == old(Start()) && old(history) <= history && old(failures) <= failures
      ensures isolated ==> rows == old(rows) && (objects == old(objects) || objects == old(objects) - {legacyKey})
      ensures reliable && isolated ==> (legacyKey !in objects <==> Goes(old(Now()), docs, legacyKey))
      ensures isolated && legacyKey !in objects ==> forall d | d in docs :: IsVerified(Now(), d)
      ensures c == Done(true) ==> legacyKey !in objects && forall d | d in docs :: IsVerified(Now(), d)
      ensures reliable && isolated ==> c.Done? && (c.value <==> legacyKey !in objects)
      ensures isolated && legacyKey !in objects ==> failures == old(failures)
      ensures reliable && isolated ==> (failures == old(failures) <==> AllPass(old(Now()), docs, legacyKey))
      ensures settled ==> legacyKey in objects ==> References(Now(), legacyKey)
    {
      hide Run.Recorded, Run.Tracking, Run.RootedAt, Segregated, IsVerified, Run.AllSelectedFetched;
      hide Run.IsScopedGroupAt, Spared;
      hide Run.IsCompleteScopedGroup, IsLegacyKeyOfARow, SweepPasses;
      var verified :- VerifyScopedCopies(legacyKey, docs);
      if !verified {
        return Done(false);
      }
      ghost var between, earlier := Now(), history;
      ScopedIds(legacyKey, docs);
      if covered && !References(Now(), legacyKey) {
        VerifiedGroupIsSpared(legacyKey, docs);
      }
      if keyed {
        ScopedGroupMapsToItsKey(legacyKey, docs);
      }
      c := RemoveLegacySourceIfUnreferenced(legacyKey);
      HistoryKeeps(earlier);
      VerifiedRemain(between, Now(), docs);
    }

    /** What a sweep of one key finds: a leftover legacy object, and whether it was removed. */
    method SweepKey(legacyKey: string, docs: seq<Doc>, budgetSpent: bool)
      returns (leftover: bool, removed: bool, ghost threw: bool)
      requires Valid() && docs != [] && IsScopedGroupAt(legacyKey, docs)
      requires isolated ==> AllSelectedFetched()
      requires isolated ==> IsCompleteScopedGroup(legacyKey, docs)
      modifies this`rows, this`objects, this`nextId, this`history, this`failures
      ensures Valid() && Start() == old(Start()) && old(history) <= history && old(failures) <= failures
      ensures isolated ==> rows == old(rows) && (objects == old(objects) || objects == old(objects) - {legacyKey})
      ensures removed ==> leftover && options.deleteSource && !budgetSpent && legacyKey !in objects
      ensures removed ==> forall d | d in docs :: IsVerified(Now(), d)
      ensures reliable && isolated && options.deleteSource && !budgetSpent && legacyKey in old(objects) ==>
                (legacyKey !in objects <==> Goes(old(Now()), docs, legacyKey))
      ensures isolated && legacyKey in old(objects) && legacyKey !in objects ==>
                forall d | d in docs :: IsVerified(Now(), d)
      ensures isolated && !options.deleteSource ==> Now() == old(Now())
      ensures isolated && !leftover ==> legacyKey !in objects
      ensures reliable && isolated ==>
                (leftover <==> legacyKey in old(objects)) && (removed <==> leftover && legacyKey !in objects)
      ensures reliable && isolated && legacyKey !in objects ==> failures == old(failures)
      ensures threw ==> |failures| > |old(failures)|
      ensures reliable && isolated && options.deleteSource && !budgetSpent && legacyKey in old(objects) ==>
                (failures == old(failures) <==> AllPass(old(Now()), docs, legacyKey))
      ensures settled && options.deleteSource && !budgetSpent ==> legacyKey in objects ==> References(Now(), legacyKey)
    {
      hide Run.Recorded, Run.Tracking, Run.RootedAt, Segregated, IsVerified, Run.IsScopedGroupAt;
      hide Run.IsCompleteScopedGroup;
      hide Run.Goes;
      var present := ObjectExists(legacyKey);
      if present.Threw? {
        failures := failures + [Failure(docs[0].id, legacyKey, Unexpected)];
        return true, false, true;
      }
      if !present.value {
        return false, false, false;
      }
      if !options.deleteSource || budgetSpent {
        return true, false, false;
      }
      var gone := VerifyAndRemove(legacyKey, docs);
      if gone.Threw? {
        failures := failures + [Failure(docs[0].id, legacyKey, Unexpected)];
        return true, false, true;
      }
      return true, gone.value, false;
    }

    lemma ScopedGroupMapsToItsKey(legacyKey: string, docs: seq<Doc>)
      requires Valid() && isolated && docs != [] && IsScopedGroupAt(legacyKey, docs)
      ensures IsLegacyKeyOfARow(Now(), legacyKey)
    {
      assert docs[0] in docs;
      assert rows[docs[0].id] == docs[0].row;
    }

    /** Once every fetched scoped row on the key is verified and no row is at it, no row depends on it. */
    lemma VerifiedGroupIsSpared(legacyKey: string, docs: seq<Doc>)
      requires Valid() && covered && options.deleteSource && AllSelectedFetched()
      requires docs != [] && IsScopedGroupAt(legacyKey, docs) && IsCompleteScopedGroup(legacyKey, docs)
      requires forall d | d in docs :: IsVerified(Now(), d)
      requires !References(Now(), legacyKey)
      ensures Spared(Now(), legacyKey)
    {
      hide Run.Recorded, Content;
      var one := docs[0];
      assert Known(one) && Start().rows[one.id] == one.row;
      forall id | id in rows && IsPlaced(rows[id]) && LegacyKey(rows[id]) == legacyKey
        && Serves(Now(), rows[id], legacyKey)
        ensures Content(Now(), id).Some?
      {
        assert IsScoped(rows[id]);
        if id in fetched && IsCandidate(fetched[id]) {
          MovedIsScoped(fetched[id]);
          assert rows[id] != fetched[id];
        } else if id in fetched {
          var d :| d in docs && d.id == id;
          assert IsVerified(Now(), d);
        } else {
          LegacyObjectIsOriginal(one.id);
          IntactStragglerStays(id, one.id);
        }
      }
    }

    /** The derived legacy key of a scoped row, unless the migration phase handled it. */
    static function SweepKeyOf(skip: set<string>, d: Doc): Option<string> {
      if !IsScoped(d.row) || LegacyKey(d.row) in skip then None else Some(LegacyKey(d.row))
    }

    /** The sweep sees every row that was scoped when it was fetched. */
    ghost predicate IsWholeSweep(scopedRows: seq<Doc>)
      reads this`fetched
    {
      forall id | id in fetched && IsScoped(fetched[id]) :: Doc(id, fetched[id]) in scopedRows
    }

    /** Some scoped row maps to the key, all that do pass, and no row is at the key. */
    static ghost predicate SweptAway(w: World, scopedRows: seq<Doc>, key: string) {
      && !References(w, key)
      && (exists d | d in scopedRows :: IsScoped(d.row) && LegacyKey(d.row) == key)
      && (forall d | d in scopedRows && IsScoped(d.row) && LegacyKey(d.row) == key :: SweepPasses(w, d.row, key))
    }

    /** The legacy keys of scoped rows, apart from those to skip, that still name an object. */
    static ghost function SweptLeft(w: World, scopedRows: seq<Doc>, keys: set<string>): set<string> {
      set d | d in scopedRows && IsScoped(d.row) && LegacyKey(d.row) !in keys && LegacyKey(d.row) in w.objects ::
        LegacyKey(d.row)
    }

    /** On a quiet table with reliable calls: the sweep still had leave to remove. */
    ghost predicate IsUnspent(sweep: SweepResult) {
      keyed && reliable && (options.limit.Some? ==> sweep.objectsRemoved < options.limit.value)
    }

    /** An object went only for a key of scoped rows that is not one to skip, and once all of them were verified. */
    static ghost predicate GoneWereVerified(between: World, w: World, scopedRows: seq<Doc>, keys: set<string>) {
      forall k | k in between.objects && k !in w.objects ::
        && k !in keys && (exists d | d in scopedRows && IsScoped(d.row) :: LegacyKey(d.row) == k)
        && forall d | d in scopedRows && IsScoped(d.row) && LegacyKey(d.row) == k :: IsVerified(w, d)
    }

    /** What the sweep reports, and what it leaves, for the scoped rows it was given. */
    ghost predicate IsSwept(between: World, alreadyScoped: seq<Doc>, keys: set<string>, sweep: SweepResult)
      reads this`rows, this`objects, this`nextId
    {
      && (isolated ==> between.rows == rows && forall k | k in objects :: k in between.objects)
      && (isolated && reliable ==>
            sweep.keysWithLeftovers - sweep.objectsRemoved == |SweptLeft(Now(), alreadyScoped, keys)|)
      && (isolated && sweep.objectsRemoved == sweep.keysWithLeftovers ==>
            forall d | d in alreadyScoped && IsScoped(d.row) ::
              LegacyKey(d.row) in keys || LegacyKey(d.row) !in objects)
      && (isolated ==> GoneWereVerified(between, Now(), alreadyScoped, keys))
      && (isolated && reliable ==> sweep.objectsRemoved == |Gone(between.objects, objects)|)
      && (IsUnspent(sweep) && options.deleteSource ==> forall k | k in between.objects ::
            k !in objects <==> k !in keys && SweptAway(between, alreadyScoped, k))
      && (settled && options.deleteSource ==>
            forall d | d in alreadyScoped && IsScoped(d.row) ::
              LegacyKey(d.row) in keys || LegacyKey(d.row) !in objects || References(Now(), LegacyKey(d.row)))
    }

    /** The storage-level sweep over rows that were already scoped when they were fetched. */
    method SweepLegacyObjects(scopedRows: seq<Doc>, skipKeys: set<string>) returns (result: SweepResult)
      requires Valid() && forall d | d in scopedRows :: Known(d) && IsScoped(d.row)
      requires isolated ==> AllSelectedFetched()
      requires isolated ==> IsWholeSweep(scopedRows)
      modifies this`rows, this`objects, this`nextId, this`history, this`failures
      ensures Valid() && Start() == old(Start()) && old(history) <= history && old(failures) <= failures
      ensures isolated ==> rows == old(rows) && forall k | k in objects :: k in old(objects)
      ensures result.objectsRemoved <= result.keysWithLeftovers
      ensures options.limit.Some? ==> result.objectsRemoved <= options.limit.value
      ensures !options.deleteSource ==> result.objectsRemoved == 0 && (isolated ==> Now() == old(Now()))
      ensures IsSwept(old(Now()), scopedRows, skipKeys, result)
      ensures reliable && isolated && SweptLeft(Now(), scopedRows, skipKeys) == {} ==> failures == old(failures)
    {
      hide Run.Recorded, Run.Tracking, Run.RootedAt, Segregated, Run.AllSelectedFetched, IsVerified, References;
      hide Run.Goes;
      hide Bounded, NoLoss, Run.IsWholeSweep, Run.IsCompleteScopedGroup, Run.IsSwept, Run.IsScopedGroupAt, IsGroupedBy;
      hide Run.IsReached, Run.SweptLeft, Run.LeftKeys;
      var keyOf := (d: Doc) => SweepKeyOf(skipKeys, d);
      var groups := GroupBy(scopedRows, keyOf);
      ghost var start := Now();
      result := SweepResult(0, 0);
      NothingSwept(groups);
      for n := 0 to |groups|
        invariant Valid() && Start() == old(Start()) && old(history) <= history && old(failures) <= failures
        invariant isolated ==> AllSelectedFetched()
        invariant isolated ==> rows == old(rows) && forall k | k in objects :: k in old(objects)
        invariant result.objectsRemoved <= result.keysWithLeftovers
        invariant options.limit.Some? ==> result.objectsRemoved <= options.limit.value
        invariant !options.deleteSource ==> result.objectsRemoved == 0 && (isolated ==> Now() == old(Now()))
        invariant isolated ==> IsReached(start, Now(), groups, n, result)
        invariant reliable && isolated && LeftKeys(Now(), groups[..n]) == {} ==> failures == old(failures)
      {
        var legacyKey, docs := groups[n].key, groups[n].items;
        SweepGroup(scopedRows, skipKeys, keyOf, groups, n);
        var budgetSpent := options.limit.Some? && result.objectsRemoved >= options.limit.value;
        ghost var between, earlier := Now(), history;
        var leftover, removed;
        ghost var threw;
        leftover, removed, threw := SweepKey(legacyKey, docs, budgetSpent);
        HistoryKeeps(earlier);
        ghost var before := result;
        result := SweepResult(
          result.keysWithLeftovers + (if leftover then 1 else 0),
          result.objectsRemoved + (if removed then 1 else 0));
        OneMoreLeft(between, groups, n, scopedRows, keyOf);
        if isolated {
          SweptOneMore(start, between, scopedRows, skipKeys, keyOf, groups, n, before, leftover, removed, budgetSpent);
        }
      }
      assert groups[..|groups|] == groups;
      if isolated {
        SweepIsDone(start, scopedRows, skipKeys, keyOf, groups, result);
      } else {
        UnwatchedSweep(start, scopedRows, skipKeys, result);
      }
    }

    lemma UnwatchedSweep(start: World, scopedRows: seq<Doc>, skipKeys: set<string>, result: SweepResult)
      requires Modes() && !isolated
      ensures IsSwept(start, scopedRows, skipKeys, result)
    {
    }

    /** The keys of the groups that still name an object. */
    static ghost function LeftKeys(w: World, groups: seq<Group<string, Doc>>): set<string> {
      set g | g in groups && g.key in w.objects :: g.key
    }

    /** One more group adds its key if the object is still there; the keys before are as they were. */
    lemma OneMoreLeft(between: World, groups: seq<Group<string, Doc>>, n: nat, scopedRows: seq<Doc>,
                      keyOf: Doc -> Option<string>)
      requires n < |groups| && IsGroupedBy(scopedRows, keyOf, groups)
      ensures objects == between.objects || objects == between.objects - {groups[n].key} ==>
                && LeftKeys(Now(), groups[..n + 1]) ==
                     LeftKeys(between, groups[..n]) + (if groups[n].key in objects then {groups[n].key} else {})
                && groups[n].key !in LeftKeys(between, groups[..n])
    {
      assert groups[..n + 1] == groups[..n] + [groups[n]];
      assert forall g | g in groups[..n] :: g.key != groups[n].key;
      if objects == between.objects || objects == between.objects - {groups[n].key} {
        assert forall g | g in groups[..n] :: g.key in objects <==> g.key in between.objects;
      }
    }

    /** How far the sweep of a quiet table has come in a world, after n of its groups. */
    ghost predicate IsReached(start: World, w: World, groups: seq<Group<string, Doc>>, n: nat, result: SweepResult)
      requires n <= |groups|
    {
      && w.rows == start.rows && (forall k | k in w.objects :: k in start.objects)
      && (result.objectsRemoved == result.keysWithLeftovers ==> forall j | 0 <= j < n :: groups[j].key !in w.objects)
      && (reliable ==> result.keysWithLeftovers - result.objectsRemoved == |LeftKeys(w, groups[..n])|)
      && AreSwept(start.objects, w, groups, n)
      && (reliable ==> result.objectsRemoved == |Gone(start.objects, w.objects)|)
      && (IsUnspent(result) && options.deleteSource ==> IsSweptUpTo(start, w, groups, n))
      && (settled && options.deleteSource ==>
            forall j | 0 <= j < n :: groups[j].key in w.objects ==> References(w, groups[j].key))
    }

    lemma NothingSwept(groups: seq<Group<string, Doc>>)
      ensures IsReached(Now(), Now(), groups, 0, SweepResult(0, 0))
    {
    }

    lemma SweptOneMore(start: World, between: World, scopedRows: seq<Doc>, skipKeys: set<string>,
                       keyOf: Doc -> Option<string>, groups: seq<Group<string, Doc>>, n: nat, before: SweepResult,
                       leftover: bool, removed: bool, budgetSpent: bool)
      requires Valid() && isolated && n < |groups|
      requires forall d :: keyOf(d) == SweepKeyOf(skipKeys, d)
      requires forall d | d in scopedRows :: Known(d) && IsScoped(d.row)
      requires IsGroupedBy(scopedRows, keyOf, groups)
      requires before.objectsRemoved <= before.keysWithLeftovers && IsReached(start, between, groups, n, before)
      requires Bounded(between) && NoLoss(between, Now()) && between.rows == rows
      requires objects == between.objects || objects == between.objects - {groups[n].key}
      requires groups[n].key in between.objects && groups[n].key !in objects ==>
                 forall d | d in groups[n].items :: IsVerified(Now(), d)
      requires !leftover ==> groups[n].key !in objects
      requires removed ==> leftover && groups[n].key !in objects
      requires reliable ==>
                 && (leftover <==> groups[n].key in between.objects)
                 && (removed <==> leftover && groups[n].key !in objects)
                 && LeftKeys(Now(), groups[..n + 1]) ==
                      LeftKeys(between, groups[..n]) + (if groups[n].key in objects then {groups[n].key} else {})
                 && groups[n].key !in LeftKeys(between, groups[..n])
      requires budgetSpent <==> options.limit.Some? && before.objectsRemoved >= options.limit.value
      requires reliable && options.deleteSource && !budgetSpent && groups[n].key in between.objects ==>
                 (groups[n].key !in objects <==> Goes(between, groups[n].items, groups[n].key))
      requires settled && options.deleteSource && !budgetSpent ==>
                 groups[n].key in objects ==> References(Now(), groups[n].key)
      ensures var after := SweepResult(before.keysWithLeftovers + (if leftover then 1 else 0),
                                       before.objectsRemoved + (if removed then 1 else 0));
              IsReached(start, Now(), groups, n + 1, after)
    {
      hide Run.Recorded, Run.Tracking, Run.RootedAt, Run.AreSwept, Run.IsSweptUpTo, Run.Goes, IsVerified, IsGroupedBy;
      hide NoLoss, Bounded, Run.LeftKeys;
      VerifiedOneMore(start.objects, between, scopedRows, keyOf, groups, n);
      if reliable {
        GoneOneMore(start.objects, between.objects, groups[n].key);
      }
      if IsUnspent(before) && options.deleteSource && !budgetSpent {
        SweptUpToOneMore(start, between, scopedRows, skipKeys, keyOf, groups, n);
      }
    }

    lemma GoneOneMore(first: map<string, Bytes>, between: map<string, Bytes>, key: string)
      requires forall k | k in between :: k in first
      requires objects == between || objects == between - {key}
      ensures |Gone(first, objects)| == |Gone(first, between)| + if key in between && key !in objects then 1 else 0
    {
      if key in between && key !in objects {
        assert Gone(first, objects) == Gone(first, between) + {key};
      } else {
        assert objects.Keys == between.Keys;
      }
    }

    lemma SweepIsDone(start: World, scopedRows: seq<Doc>, skipKeys: set<string>, keyOf: Doc -> Option<string>,
                      groups: seq<Group<string, Doc>>, result: SweepResult)
      requires forall d :: keyOf(d) == SweepKeyOf(skipKeys, d)
      requires forall d | d in scopedRows :: IsScoped(d.row)
      requires isolated && IsGroupedBy(scopedRows, keyOf, groups) && IsReached(start, Now(), groups, |groups|, result)
      ensures IsSwept(start, scopedRows, skipKeys, result)
      ensures LeftKeys(Now(), groups) == SweptLeft(Now(), scopedRows, skipKeys)
    {
      hide IsVerified, Run.AreSwept, References, Run.IsSweptUpTo, Run.SweptAway, Run.LeftKeys, Run.SweptLeft;
      hide Run.GoneWereVerified, Gone;
      assert groups[..|groups|] == groups;
      LeftKeysAreSweptLeft(Now(), scopedRows, skipKeys, keyOf, groups);
      if IsUnspent(result) && options.deleteSource {
        SweptAwayExactlyWhen(start, scopedRows, skipKeys, keyOf, groups);
      }
      SweptKeysAreVerified(start, scopedRows, skipKeys, keyOf, groups);
      forall d | d in scopedRows && LegacyKey(d.row) !in skipKeys
        ensures exists j :: 0 <= j < |groups| && groups[j].key == LegacyKey(d.row)
      {
        assert keyOf(d).Some?;
      }
    }

    lemma LeftKeysAreSweptLeft(w: World, scopedRows: seq<Doc>, skipKeys: set<string>, keyOf: Doc -> Option<string>,
                               groups: seq<Group<string, Doc>>)
      requires forall d :: keyOf(d) == SweepKeyOf(skipKeys, d)
      requires IsGroupedBy(scopedRows, keyOf, groups)
      ensures LeftKeys(w, groups) == SweptLeft(w, scopedRows, skipKeys)
    {
      forall k | k in LeftKeys(w, groups)
        ensures k in SweptLeft(w, scopedRows, skipKeys)
      {
        var i :| 0 <= i < |groups| && groups[i].key == k;
        ItemsOfMembers(scopedRows, keyOf, k);
        assert groups[i].items[0] in groups[i].items;
      }
      forall d | d in scopedRows && IsScoped(d.row) && LegacyKey(d.row) !in skipKeys && LegacyKey(d.row) in w.objects
        ensures LegacyKey(d.row) in LeftKeys(w, groups)
      {
        assert keyOf(d).Some?;
        var i :| 0 <= i < |groups| && groups[i].key == keyOf(d).value;
        assert groups[i] in groups;
      }
    }

    /** Exactly the keys of the groups done so far that go have gone. */
    ghost predicate IsSweptUpTo(first: World, w: World, groups: seq<Group<string, Doc>>, n: nat)
      requires n <= |groups|
    {
      && w.rows == first.rows
      && (forall k | k in w.objects :: k in first.objects && w.objects[k] == first.objects[k])
      && (forall k | k in first.objects && k !in w.objects :: exists j | 0 <= j < n :: groups[j].key == k)
      && (forall j | 0 <= j < |groups| && groups[j].key in first.objects ::
            groups[j].key !in w.objects <==> j < n && Goes(first, groups[j].items, groups[j].key))
    }

    lemma SweptUpToOneMore(first: World, between: World, scopedRows: seq<Doc>, skipKeys: set<string>,
                           keyOf: Doc -> Option<string>, groups: seq<Group<string, Doc>>, n: nat)
      requires Valid() && keyed && n < |groups| && IsSweptUpTo(first, between, groups, n)
      requires forall d :: keyOf(d) == SweepKeyOf(skipKeys, d)
      requires forall d | d in scopedRows :: Known(d) && IsScoped(d.row)
      requires IsGroupedBy(scopedRows, keyOf, groups)
      requires rows == between.rows
      requires objects == between.objects || objects == between.objects - {groups[n].key}
      requires groups[n].key in between.objects ==>
                 (groups[n].key !in objects <==> Goes(between, groups[n].items, groups[n].key))
      ensures IsSweptUpTo(first, Now(), groups, n + 1)
    {
      hide Run.Recorded, Run.RootedAt, Run.Goes;
      assert groups[n].key in first.objects ==> groups[n].key in between.objects;
      if groups[n].key in first.objects {
        SameGoing(first, between, scopedRows, skipKeys, keyOf, groups, n);
      }
    }

    /** What the sweep removed before does not matter to the rows on a key: their own copies are no legacy objects. */
    lemma SameGoing(first: World, between: World, scopedRows: seq<Doc>, skipKeys: set<string>,
                    keyOf: Doc -> Option<string>, groups: seq<Group<string, Doc>>, n: nat)
      requires Valid() && keyed && n < |groups| && IsSweptUpTo(first, between, groups, n)
      requires forall d :: keyOf(d) == SweepKeyOf(skipKeys, d)
      requires forall d | d in scopedRows :: Known(d) && IsScoped(d.row)
      requires IsGroupedBy(scopedRows, keyOf, groups) && rows == between.rows && groups[n].key in first.objects
      ensures groups[n].key in between.objects
      ensures Goes(between, groups[n].items, groups[n].key) <==> Goes(first, groups[n].items, groups[n].key)
    {
      hide Run.Recorded, Run.RootedAt;
      var key, docs := groups[n].key, groups[n].items;
      ItemsOfMembers(scopedRows, keyOf, key);
      forall d | d in docs
        ensures SweepPasses(between, d.row, key) <==> SweepPasses(first, d.row, key)
      {
        OwnCopyIsNoSweepKey(scopedRows, skipKeys, keyOf, groups, d);
      }
    }

    lemma OwnCopyIsNoSweepKey(scopedRows: seq<Doc>, skipKeys: set<string>, keyOf: Doc -> Option<string>,
                              groups: seq<Group<string, Doc>>, d: Doc)
      requires Valid() && keyed && Known(d) && IsScoped(d.row)
      requires forall d :: keyOf(d) == SweepKeyOf(skipKeys, d)
      requires forall d | d in scopedRows :: Known(d) && IsScoped(d.row)
      requires IsGroupedBy(scopedRows, keyOf, groups)
      ensures forall j | 0 <= j < |groups| :: groups[j].key != d.row.path.value
    {
      hide Run.Recorded, Run.RootedAt;
      forall j | 0 <= j < |groups|
        ensures groups[j].key != d.row.path.value
      {
        ItemsOfMembers(scopedRows, keyOf, groups[j].key);
        var e := groups[j].items[0];
        assert e in groups[j].items && Known(e);
        assert rows[e.id] == e.row && rows[d.id] == d.row;
        assert IsPlaced(rows[e.id]) && LegacyKey(rows[e.id]) == groups[j].key;
      }
    }

    lemma SweptAwayExactlyWhen(first: World, scopedRows: seq<Doc>, skipKeys: set<string>, keyOf: Doc -> Option<string>,
                               groups: seq<Group<string, Doc>>)
      requires forall d :: keyOf(d) == SweepKeyOf(skipKeys, d)
      requires forall d | d in scopedRows :: IsScoped(d.row)
      requires IsGroupedBy(scopedRows, keyOf, groups) && IsSweptUpTo(first, Now(), groups, |groups|)
      ensures forall k | k in first.objects :: k !in objects <==> k !in skipKeys && SweptAway(first, scopedRows, k)
    {
      hide SweepPasses, References;
      forall k | k in first.objects
        ensures k !in objects <==> k !in skipKeys && SweptAway(first, scopedRows, k)
      {
        if j :| 0 <= j < |groups| && groups[j].key == k {
          ItemsOfMembers(scopedRows, keyOf, k);
          assert groups[j].items[0] in groups[j].items;
          assert Goes(first, groups[j].items, k) <==> SweptAway(first, scopedRows, k);
        } else {
          forall d | d in scopedRows && LegacyKey(d.row) == k
            ensures k in skipKeys
          {
            assert keyOf(d) == SweepKeyOf(skipKeys, d);
          }
        }
      }
    }

    /** What the sweep has removed so far are keys of groups it verified. */
    ghost predicate AreSwept(first: map<string, Bytes>, w: World, groups: seq<Group<string, Doc>>, n: nat)
      requires n <= |groups|
    {
      forall k | k in first && k !in w.objects ::
        exists j | 0 <= j < n :: groups[j].key == k && forall d | d in groups[j].items :: IsVerified(w, d)
    }

    lemma VerifiedOneMore(first: map<string, Bytes>, between: World, scopedRows: seq<Doc>, keyOf: Doc -> Option<string>,
                       groups: seq<Group<string, Doc>>, n: nat)
      requires Valid() && isolated && n < |groups| && AreSwept(first, between, groups, n)
      requires IsGroupedBy(scopedRows, keyOf, groups) && forall d | d in scopedRows :: Known(d)
      requires Bounded(between) && NoLoss(between, Now()) && between.rows == rows
      requires forall k | k in between.objects && k != groups[n].key :: k in objects
      requires forall k | k in objects :: k in between.objects
      requires groups[n].key in between.objects && groups[n].key !in objects ==>
                 forall d | d in groups[n].items :: IsVerified(Now(), d)
      ensures AreSwept(first, Now(), groups, n + 1)
    {
      hide Run.Recorded, Run.RootedAt, IsVerified;
      forall k | k in first && k !in objects
        ensures exists j | 0 <= j < n + 1 ::
                  groups[j].key == k && forall d | d in groups[j].items :: IsVerified(Now(), d)
      {
        if k in between.objects {
          assert groups[n].key == k;
        } else {
          var j :| 0 <= j < n && groups[j].key == k && forall d | d in groups[j].items :: IsVerified(between, d);
          ItemsOfMembers(scopedRows, keyOf, k);
          VerifiedRemain(between, Now(), groups[j].items);
        }
      }
    }

    lemma SweptKeysAreVerified(first: World, scopedRows: seq<Doc>, skipKeys: set<string>,
                               keyOf: Doc -> Option<string>, groups: seq<Group<string, Doc>>)
      requires forall d :: keyOf(d) == SweepKeyOf(skipKeys, d)
      requires forall d | d in scopedRows :: IsScoped(d.row)
      requires IsGroupedBy(scopedRows, keyOf, groups) && AreSwept(first.objects, Now(), groups, |groups|)
      ensures GoneWereVerified(first, Now(), scopedRows, skipKeys)
    {
      hide IsVerified;
      forall k | k in first.objects && k !in objects
        ensures k !in skipKeys && exists d | d in scopedRows :: LegacyKey(d.row) == k
        ensures forall d | d in scopedRows && LegacyKey(d.row) == k :: IsVerified(Now(), d)
      {
        var j :| 0 <= j < |groups| && groups[j].key == k && forall d | d in groups[j].items :: IsVerified(Now(), d);
        ItemsOfMembers(scopedRows, keyOf, k);
        assert groups[j].items[0] in groups[j].items;
      }
    }

    lemma SweepGroup(scopedRows: seq<Doc>, skipKeys: set<string>, keyOf: Doc -> Option<string>,
                     groups: seq<Group<string, Doc>>, n: nat)
      requires forall d :: keyOf(d) == SweepKeyOf(skipKeys, d)
      requires forall d | d in scopedRows :: Known(d) && IsScoped(d.row)
      requires IsGroupedBy(scopedRows, keyOf, groups) && n < |groups|
      requires isolated ==> IsWholeSweep(scopedRows)
      ensures groups[n].items != [] && IsScopedGroupAt(groups[n].key, groups[n].items)
      ensures isolated ==> IsCompleteScopedGroup(groups[n].key, groups[n].items)
    {
      var legacyKey, docs := groups[n].key, groups[n].items;
      ItemsOfMembers(scopedRows, keyOf, legacyKey);
      assert docs[0] in docs;
      if isolated {
        forall id | id in fetched && IsScoped(fetched[id]) && LegacyKey(fetched[id]) == legacyKey
          ensures id in Ids(docs)
        {
          assert Doc(id, fetched[id]) in docs;
        }
      }
    }

    // ---------------------------------------------------------- main

    /** --limit caps the rows of the batch, but a group is never split. */
    method SelectBatch(groups: seq<Group<string, Doc>>) returns (batch: seq<Group<string, Doc>>)
      ensures |batch| <= |groups| && batch == groups[..|batch|]
      ensures |batch| < |groups| ==> options.limit.Some? && Size(batch) >= options.limit.value
      ensures options.limit.Some? && batch != [] ==> Size(batch[..|batch| - 1]) < options.limit.value
    {
      batch := [];
      var batchRows := 0;
      assert groups[..0] == [];
      while |batch| < |groups| && !(options.limit.Some? && batchRows >= options.limit.value)
        invariant |batch| <= |groups| && batch == groups[..|batch|] && batchRows == Size(batch)
        invariant options.limit.Some? && batch != [] ==> Size(batch[..|batch| - 1]) < options.limit.value
        decreases |groups| - |batch|
      {
        var group := groups[|batch|];
        batchRows := batchRows + |group.items|;
        OneMoreGroup(groups, batch);
        batch := batch + [group];
      }
    }

    lemma OneMoreGroup(groups: seq<Group<string, Doc>>, batch: seq<Group<string, Doc>>)
      requires |batch| < |groups| && batch == groups[..|batch|]
      ensures var longer := batch + [groups[|batch|]];
              && longer == groups[..|longer|] && longer[..|longer| - 1] == batch
              && Size(longer) == Size(batch) + |groups[|batch|].items|
    {
      assert (batch + [groups[|batch|]])[..|batch|] == batch;
    }

    /** The legacy groups of the fetched rows. */
    ghost predicate AreGroups(batch: seq<Group<string, Doc>>)
      reads this`fetched
    {
      && (forall i, j | 0 <= i < j < |batch| :: batch[i].key != batch[j].key)
      && (forall i | 0 <= i < |batch| ::
            && batch[i].items != []
            && IsGroupAt(batch[i].key, batch[i].items)
            && IsCompleteGroup(batch[i].key, batch[i].items)
            && (isolated ==> Ascending(batch[i].items)))
    }

    /** What one group of the batch did to the world. */
    ghost predicate IsGroupStep(before: World, source: string, docs: seq<Doc>, outcome: Option<Outcome>)
      reads this`rows, this`objects, this`nextId, this`history
      requires |history| > 0
    {
      && (isolated ==>
            && rows.Keys == before.rows.Keys
            && (forall id | id in rows && id !in Ids(docs) :: rows[id] == before.rows[id])
            && (forall k | k in objects :: k in before.objects || k in TargetsOf(docs))
            && (forall k | k in before.objects && k != source && k !in TargetsOf(docs) :: k in objects))
      && (reliable && isolated && AreFresh(before.rows, docs) ==>
            && outcome.Some? && AreMoved(before, rows, docs, outcome.value.migratedRows)
            && (source in objects <==>
                  source in before.objects
                  && !(options.deleteSource && outcome.value.failedRows == 0 && !References(Now(), source))))
      && (reliable && isolated ==>
            && outcome.Some? && Counts(before.rows, rows, docs, outcome.value.migratedRows)
            && (outcome.value.sourceRemoved <==> outcome.value.failedRows == 0 && source !in objects)
            && NewAreReferenced(before, Now()))
      && (outcome.Some? ==>
            && outcome.value.migratedRows + outcome.value.failedRows == |docs|
            && (outcome.value.failedRows == 0 ==> AreRehomed(Now(), docs))
            && (outcome.value.sourceRemoved ==> outcome.value.failedRows == 0 && source !in objects))
      && (settled ==> outcome.Some? && AreFinal(Now(), Start(), docs))
      && (settled && options.deleteSource ==> source in objects ==> !IsAbandoned(Start(), source))
    }

    /** One group; an exception fails all its rows and never aborts the run. None is a caught exception. */
    method MigrateNext(source: string, docs: seq<Doc>) returns (outcome: Option<Outcome>)
      requires Valid() && docs != [] && IsGroupAt(source, docs) && IsCompleteGroup(source, docs)
      requires isolated ==> AllSelectedFetched()
      modifies this`rows, this`objects, this`nextId, this`history, this`failures
      ensures Valid() && Start() == old(Start()) && old(history) <= history && old(failures) <= failures
      ensures isolated ==> AllSelectedFetched()
      ensures IsGroupStep(old(Now()), source, docs, outcome)
      ensures outcome.Some? ==> outcome.value.migratedRows + outcome.value.failedRows == |docs|
      ensures reliable && isolated ==> outcome.Some? && (outcome.value.failedRows == 0 ==> failures == old(failures))
      ensures outcome.Some? ==> |failures| == |old(failures)| + outcome.value.failedRows
      ensures outcome.None? ==> |failures| >= |old(failures)| + |docs|
    {
      hide Run.Recorded, Run.Tracking, Run.RootedAt, Segregated, AreRehomed, Run.IsCompleteGroup, Run.AreMoved;
      hide References, Run.Counts, Run.NewAreReferenced;
      hide AreFinal, IsAbandoned, TargetsOf;
      ghost var before := rows;
      assert forall d | d in docs :: d.id in fetched;
      var c := MigrateGroup(source, docs);
      if isolated {
        StillAllFetched(before, docs);
      }
      if c.Threw? {
        FailAll(docs, source, Unexpected);
        return None;
      }
      outcome := Some(c.value);
    }

    /** What the migration phase has reached on the groups of its batch. */
    ghost predicate IsMigrated(w: World, start: World, batch: seq<Group<string, Doc>>, migratedRows: nat,
                               sourcesKept: nat) {
      && migratedRows <= Size(batch)
      && (keyed && migratedRows == Size(batch) ==> forall g | g in batch :: AreRehomed(w, g.items))
      && (keyed && migratedRows == Size(batch) && sourcesKept == 0 ==> forall g | g in batch :: g.key !in w.objects)
      && (complete ==> forall g | g in batch :: IsVacated(w, start, g.key, g.items))
      && (settled ==> forall g | g in batch :: AreFinal(w, start, g.items))
      && (settled && options.deleteSource ==>
            forall g | g in batch :: g.key in w.objects ==> !IsAbandoned(start, g.key))
    }

    /** What a complete run makes of a key and its rows: the object goes exactly when every row at the key leaves it. */
    ghost predicate IsVacated(w: World, start: World, key: string, docs: seq<Doc>) {
      && (key in w.objects <==>
            key in start.objects && !(options.deleteSource && Vacates(start, key, options.onlyCompany)))
      && (Vacates(start, key, options.onlyCompany) ==> AreRehomed(w, docs))
    }

    /** Nothing about the group has changed since the run began. */
    static ghost predicate IsFreshGroup(w: World, start: World, source: string, docs: seq<Doc>) {
      && AreFresh(w.rows, docs)
      && (source in w.objects <==> source in start.objects)
      && forall t | t in TargetsOf(docs) :: t in w.objects <==> t in start.objects
    }

    static ghost predicate AreFreshFrom(w: World, start: World, batch: seq<Group<string, Doc>>, n: nat) {
      forall j | n <= j < |batch| :: IsFreshGroup(w, start, batch[j].key, batch[j].items)
    }

    /** The rows of a fresh group pass now exactly when they passed at the start. */
    lemma SamePasses(source: string, docs: seq<Doc>)
      requires Valid() && keyed && IsGroupAt(source, docs) && IsFreshGroup(Now(), Start(), source, docs)
      ensures forall d | d in docs :: Passes(Now(), d.id) == Passes(Start(), d.id)
    {
      hide Run.Recorded, Run.Tracking;
      forall d | d in docs
        ensures Passes(Now(), d.id) == Passes(Start(), d.id)
      {
        assert Target(d.row) in TargetsOf(docs);
        assert Start().rows[d.id] == rows[d.id] == d.row;
      }
    }

    /** After all rows of a complete group have moved, only rows that never had to leave the key point at it. */
    lemma OthersReference(source: string, docs: seq<Doc>)
      requires Valid() && keyed && AllSelectedFetched()
      requires docs != [] && IsGroupAt(source, docs) && IsCompleteGroup(source, docs)
      requires forall d | d in docs :: d.id in rows && rows[d.id] == Moved(d.row)
      ensures References(Now(), source) <==>
                exists id | id in Start().rows ::
                  Start().rows[id].path == Some(source) && !IsLeaving(Start(), id, source, options.onlyCompany)
    {
      hide Run.Recorded, Run.Tracking;
      CompleteGroupInTable(source, docs);
      SourceIsNoGroupTarget(source, docs);
      forall id | id in rows && rows[id].path == Some(source)
        ensures id in Start().rows && Start().rows[id].path == Some(source)
        ensures !IsLeaving(Start(), id, source, options.onlyCompany)
      {
        NotMovedTo(source, docs, id);
      }
      forall id | id in Start().rows && Start().rows[id].path == Some(source)
                  && !IsLeaving(Start(), id, source, options.onlyCompany)
        ensures rows[id].path == Some(source)
      {
        UnselectedRowStays(id, source);
      }
    }

    /** A row at a key that it does not have to leave in this run is still there. */
    lemma UnselectedRowStays(id: nat, source: string)
      requires Valid() && isolated && id in Start().rows && Start().rows[id].path == Some(source)
      requires !IsLeaving(Start(), id, source, options.onlyCompany)
      ensures id in rows && rows[id] == Start().rows[id]
    {
      hide Run.Recorded;
    }

    /** A row at the source that is not one of the group was there from the start. */
    lemma NotMovedTo(source: string, docs: seq<Doc>, id: nat)
      requires Valid() && keyed && docs != [] && IsGroupAt(source, docs) && id in rows && rows[id].path == Some(source)
      requires forall d | d in docs :: d.id in rows && rows[d.id] == Moved(d.row)
      requires forall i | i in rows && IsLeaving(Now(), i, source, options.onlyCompany) :: i in Ids(docs)
      requires source !in TargetsOf(docs)
      ensures id in Start().rows && rows[id] == Start().rows[id] && !IsLeaving(Now(), id, source, options.onlyCompany)
    {
      hide Run.Recorded, Run.Tracking;
      assert forall d | d in docs :: Target(d.row) in TargetsOf(docs);
      assert id !in Ids(docs);
      if rows[id] != Start().rows[id] {
        assert IsTargetKey(source);
        GroupMapsToItsSource(source, docs);
        TargetIsNoLegacyKey(source);
      }
    }

    /** What a complete run has made of a group that it just migrated. */
    lemma GroupIsVacated(before: World, source: string, docs: seq<Doc>, outcome: Outcome)
      requires Valid() && complete && AllSelectedFetched()
      requires docs != [] && IsGroupAt(source, docs) && IsCompleteGroup(source, docs)
      requires forall d | d in docs :: Passes(before, d.id) == Passes(Start(), d.id)
      requires source in before.objects <==> source in Start().objects
      requires AreMoved(before, rows, docs, outcome.migratedRows) && outcome.migratedRows + outcome.failedRows == |docs|
      requires outcome.failedRows == 0 ==> AreRehomed(Now(), docs)
      requires source in objects <==>
                 && source in before.objects
                 && !(options.deleteSource && outcome.failedRows == 0 && !References(Now(), source))
      ensures IsVacated(Now(), Start(), source, docs)
    {
      hide Run.Recorded, Run.Tracking, Run.RootedAt, AreRehomed, Passes, References;
      assert outcome.failedRows == 0 <==> forall d | d in docs :: Passes(Start(), d.id);
      GroupAtStart(source, docs);
      if outcome.failedRows == 0 {
        OthersReference(source, docs);
      }
    }

    /** The group is exactly the rows that had to leave the key when the run began. */
    lemma GroupAtStart(source: string, docs: seq<Doc>)
      requires Valid() && keyed && AllSelectedFetched()
      requires docs != [] && IsGroupAt(source, docs) && IsCompleteGroup(source, docs)
      ensures IsLeaving(Start(), docs[0].id, source, options.onlyCompany)
      ensures forall id | id in Start().rows && IsLeaving(Start(), id, source, options.onlyCompany) ::
                exists d | d in docs :: d.id == id
      ensures forall d | d in docs :: IsLeaving(Start(), d.id, source, options.onlyCompany)
    {
      hide Run.Recorded;
      assert docs[0] in docs;
      forall id | id in Start().rows && IsLeaving(Start(), id, source, options.onlyCompany)
        ensures exists d | d in docs :: d.id == id
      {
        assert id in rows;
        if rows[id] != Start().rows[id] {
          MovedIsScoped(fetched[id]);
        }
        assert id in fetched;
        assert id in Ids(docs);
      }
    }

    /** A group done earlier is untouched by the next one, and its removed source does not come back. */
    lemma DoneGroupStays(before: World, batch: seq<Group<string, Doc>>, i: nat, n: nat)
      requires Valid() && keyed && AreGroups(batch) && i < n < |batch|
      requires Bounded(before) && NoLoss(before, Now()) && rows.Keys == before.rows.Keys
      requires forall id | id in rows && id !in Ids(batch[n].items) :: rows[id] == before.rows[id]
      requires forall k | k in objects :: k in before.objects || k in TargetsOf(batch[n].items)
      requires forall k | k in before.objects && k != batch[n].key && k !in TargetsOf(batch[n].items) :: k in objects
      ensures AreRehomed(before, batch[i].items) ==> AreRehomed(Now(), batch[i].items)
      ensures AreFinal(before, Start(), batch[i].items) ==> AreFinal(Now(), Start(), batch[i].items)
      ensures batch[i].key in before.objects <==> batch[i].key in objects
    {
      hide Run.Recorded, Run.RootedAt, TargetsOf;
      var docs := batch[i].items;
      GroupsAreApart(batch, i, n);
      forall d | d in docs
        ensures d.id !in Ids(batch[n].items) && d.id < before.nextId
      {
        assert Known(d) && d.id in before.rows;
      }
      if AreRehomed(before, docs) {
        RehomedStay(before, Now(), docs);
      }
    }

    /** Two groups share no row, and neither's key is a target of the other. */
    lemma GroupsAreApart(batch: seq<Group<string, Doc>>, i: nat, n: nat)
      requires Valid() && keyed && AreGroups(batch) && i < |batch| && n < |batch| && i != n
      ensures batch[i].key != batch[n].key && batch[i].key !in TargetsOf(batch[n].items)
      ensures forall d | d in batch[i].items :: d.id !in Ids(batch[n].items)
      ensures TargetsOf(batch[i].items) !! TargetsOf(batch[n].items)
      ensures batch[n].key !in TargetsOf(batch[i].items)
    {
      hide Run.Recorded, Run.Tracking, Run.RootedAt, Run.IsCompleteGroup;
      KeyIsNoTarget(batch, i, n);
      KeyIsNoTarget(batch, n, i);
      forall d | d in batch[i].items
        ensures d.id !in Ids(batch[n].items)
      {
        assert Known(d);
        assert forall e | e in batch[n].items :: Known(e);
      }
      forall d, e | d in batch[i].items && e in batch[n].items
        ensures Target(d.row) != Target(e.row)
      {
        if Target(d.row) == Target(e.row) {
          TargetsAreDistinct(d.row, e.row);
        }
      }
    }

    lemma KeyIsNoTarget(batch: seq<Group<string, Doc>>, i: nat, n: nat)
      requires Valid() && keyed && AreGroups(batch) && i < |batch| && n < |batch|
      ensures batch[i].key !in TargetsOf(batch[n].items)
    {
      hide Run.Recorded, Run.Tracking, Run.RootedAt, Run.IsCompleteGroup;
      GroupMapsToItsSource(batch[i].key, batch[i].items);
      if batch[i].key in TargetsOf(batch[n].items) {
        var d :| d in batch[n].items && Target(d.row) == batch[i].key;
        assert IsTargetKey(batch[i].key);
        TargetIsNoLegacyKey(batch[i].key);
      }
    }

    /** The groups still to come stay as they were. */
    lemma StillFresh(before: World, batch: seq<Group<string, Doc>>, n: nat)
      requires Valid() && keyed && AreGroups(batch) && n < |batch|
      requires AreFreshFrom(before, Start(), batch, n)
      requires rows.Keys == before.rows.Keys
      requires forall id | id in rows && id !in Ids(batch[n].items) :: rows[id] == before.rows[id]
      requires forall k | k in objects :: k in before.objects || k in TargetsOf(batch[n].items)
      requires forall k | k in before.objects && k != batch[n].key && k !in TargetsOf(batch[n].items) :: k in objects
      ensures AreFreshFrom(Now(), Start(), batch, n + 1)
    {
      hide Run.Recorded, Run.Tracking, Run.RootedAt, TargetsOf;
      forall j | n + 1 <= j < |batch|
        ensures IsFreshGroup(Now(), Start(), batch[j].key, batch[j].items)
      {
        GroupsAreApart(batch, j, n);
      }
    }

    lemma BatchGrows(before: World, batch: seq<Group<string, Doc>>, n: nat, rows0: nat, kept0: nat,
                     outcome: Option<Outcome>, rows1: nat, kept1: nat)
      requires Valid() && AreGroups(batch) && n < |batch| && batch[n].items != []
      requires IsMigrated(before, Start(), batch[..n], rows0, kept0)
      requires Bounded(before) && NoLoss(before, Now())
      requires isolated ==> rows.Keys == before.rows.Keys
                            && forall id | id in rows && id !in Ids(batch[n].items) :: rows[id] == before.rows[id]
      requires isolated ==> forall k | k in objects :: k in before.objects || k in TargetsOf(batch[n].items)
      requires isolated ==>
                 forall k | k in before.objects && k != batch[n].key && k !in TargetsOf(batch[n].items) :: k in objects
      requires outcome.Some? ==> outcome.value.migratedRows + outcome.value.failedRows == |batch[n].items|
      requires outcome.Some? && outcome.value.failedRows == 0 ==> AreRehomed(Now(), batch[n].items)
      requires outcome.Some? && outcome.value.sourceRemoved ==> batch[n].key !in objects
      requires complete ==> IsVacated(Now(), Start(), batch[n].key, batch[n].items)
      requires settled ==> AreFinal(Now(), Start(), batch[n].items)
      requires settled && options.deleteSource ==> batch[n].key in objects ==> !IsAbandoned(Start(), batch[n].key)
      requires rows1 == rows0 + (if outcome.Some? then outcome.value.migratedRows else 0)
      requires kept1 == kept0 +
                 (if outcome.Some? && outcome.value.failedRows == 0 && !outcome.value.sourceRemoved then 1 else 0)
      ensures IsMigrated(Now(), Start(), batch[..n + 1], rows1, kept1)
    {
      hide Run.Recorded, Run.Tracking, Run.RootedAt, Segregated, Run.IsMigrated, AreRehomed, AreFinal, IsAbandoned;
      hide NoLoss, Bounded, TargetsOf, Run.AreGroups, Run.IsVacated, Size;
      SizeOfPrefix(batch, n);
      assert batch[..n + 1] == batch[..n] + [batch[n]];
      forall g | keyed && g in batch[..n]
        ensures IsAsBefore(before, Now(), Start(), g)
      {
        var i :| 0 <= i < n && batch[i] == g;
        DoneGroupStays(before, batch, i, n);
      }
      MigratedOneMore(before, Now(), Start(), batch[..n], batch[n], rows0, kept0, outcome);
    }

    /** What was reached on a group is still so. */
    ghost predicate IsAsBefore(before: World, now: World, start: World, g: Group<string, Doc>) {
      && (AreRehomed(before, g.items) ==> AreRehomed(now, g.items))
      && (AreFinal(before, start, g.items) ==> AreFinal(now, start, g.items))
      && (g.key in before.objects <==> g.key in now.objects)
    }

    lemma MigratedOneMore(before: World, now: World, start: World, batch: seq<Group<string, Doc>>,
                          g: Group<string, Doc>,
                          rows0: nat, kept0: nat, outcome: Option<Outcome>)
      requires Modes() && IsMigrated(before, start, batch, rows0, kept0) && g.items != []
      requires Size(batch + [g]) == Size(batch) + |g.items|
      requires forall x | keyed && x in batch :: IsAsBefore(before, now, start, x)
      requires outcome.Some? ==> outcome.value.migratedRows + outcome.value.failedRows == |g.items|
      requires outcome.Some? && outcome.value.failedRows == 0 ==> AreRehomed(now, g.items)
      requires outcome.Some? && outcome.value.sourceRemoved ==> g.key !in now.objects
      requires complete ==> IsVacated(now, start, g.key, g.items)
      requires settled ==> AreFinal(now, start, g.items)
      requires settled && options.deleteSource ==> g.key in now.objects ==> !IsAbandoned(start, g.key)
      ensures var rows1 := rows0 + (if outcome.Some? then outcome.value.migratedRows else 0);
              var kept1 := kept0 +
                (if outcome.Some? && outcome.value.failedRows == 0 && !outcome.value.sourceRemoved then 1 else 0);
              IsMigrated(now, start, batch + [g], rows1, kept1)
    {
      hide AreRehomed, AreFinal, IsAbandoned, Vacates, Size;
      assert forall x :: x in batch + [g] <==> x in batch || x == g;
    }

    /** What the counters stand for after one more group. */
    lemma CountedOneMore(before: World, batch: seq<Group<string, Doc>>, n: nat, rows0: nat, removed0: nat, kept0: nat,
                         outcome: Outcome)
      requires Valid() && keyed && AreGroups(batch) && n < |batch|
      requires IsFreshGroup(before, Start(), batch[n].key, batch[n].items)
      requires IsCounted(before, Start(), batch[..n], rows0, removed0, kept0)
      requires batch[n].key in objects <==>
                 && batch[n].key in before.objects
                 && !(options.deleteSource && outcome.failedRows == 0 && !References(Now(), batch[n].key))
      requires Bounded(before) && NoLoss(before, Now()) && rows.Keys == before.rows.Keys
      requires forall id | id in rows && id !in Ids(batch[n].items) :: rows[id] == before.rows[id]
      requires forall k | k in objects :: k in before.objects || k in TargetsOf(batch[n].items)
      requires forall k | k in before.objects && k != batch[n].key && k !in TargetsOf(batch[n].items) :: k in objects
      requires AreMoved(before, rows, batch[n].items, outcome.migratedRows)
      requires Counts(before.rows, rows, batch[n].items, outcome.migratedRows)
      requires outcome.migratedRows + outcome.failedRows == |batch[n].items|
      requires outcome.sourceRemoved <==> outcome.failedRows == 0 && batch[n].key !in objects
      ensures IsCounted(Now(), Start(), batch[..n + 1], rows0 + outcome.migratedRows,
                        removed0 + (if outcome.sourceRemoved then 1 else 0),
                        kept0 + if outcome.failedRows == 0 && !outcome.sourceRemoved then 1 else 0)
    {
      hide References, Gone;
      hide Run.Recorded, Run.Tracking, Run.RootedAt, TargetsOf, NoLoss, Bounded, Run.IsCompleteGroup, Run.KeptKeys;
      hide Changed, Run.Counts, Run.AreMoved, Run.AllMoved, Run.AreFresh;
      RowsCountedOneMore(before, batch, n, rows0, outcome.migratedRows);
      WhollyMovedExactlyWhen(before, batch[n].key, batch[n].items, outcome);
      KeysCountedOneMore(before, batch, n, outcome);
      SourceGone(before, batch[n].key, batch[n].items, outcome);
    }

    /** Of the objects that were there at the start only the group's source may have gone. */
    lemma SourceGone(before: World, source: string, docs: seq<Doc>, outcome: Outcome)
      requires Valid() && keyed && docs != [] && IsGroupAt(source, docs) && IsFreshGroup(before, Start(), source, docs)
      requires forall k | k in objects :: k in before.objects || k in TargetsOf(docs)
      requires forall k | k in before.objects && k != source && k !in TargetsOf(docs) :: k in objects
      requires AreMoved(before, rows, docs, outcome.migratedRows)
      requires outcome.migratedRows + outcome.failedRows == |docs|
      requires outcome.sourceRemoved <==> outcome.failedRows == 0 && source !in objects
      requires source in objects <==>
                 && source in before.objects
                 && !(options.deleteSource && outcome.failedRows == 0 && !References(Now(), source))
      ensures |Gone(Start().objects, objects)| ==
                |Gone(Start().objects, before.objects)| + if outcome.sourceRemoved then 1 else 0
    {
      hide Run.Recorded, Run.Tracking, Run.RootedAt, Segregated, References, Passes, TargetsOf, Gone, Run.IsGroupAt;
      hide Run.AreFresh;
      SourceIsNoGroupTarget(source, docs);
      TargetsStay(before, source, docs);
      if outcome.failedRows == 0 {
        PassingSource(before, source, docs);
      }
      OneGone(Start().objects, before.objects, objects, source, outcome.sourceRemoved);
    }

    lemma PassingSource(before: World, source: string, docs: seq<Doc>)
      requires docs != [] && IsGroupAt(source, docs) && AreFresh(before.rows, docs)
      requires forall d | d in docs :: Passes(before, d.id)
      ensures source in before.objects
    {
      assert docs[0] in docs && Passes(before, docs[0].id);
    }

    lemma TargetsStay(before: World, source: string, docs: seq<Doc>)
      requires Valid() && keyed && IsGroupAt(source, docs) && IsFreshGroup(before, Start(), source, docs)
      ensures forall k | k in TargetsOf(docs) && k in Start().objects :: k in objects && k in before.objects
    {
      hide Run.Recorded, Run.Tracking, Segregated, TargetsOf;
      TargetsOfGroup(source, docs);
    }

    /** Rows only leave the group's own key, which no copy is made at. */
    lemma NewStayReferenced(before: World, batch: seq<Group<string, Doc>>, n: nat)
      requires Valid() && keyed && AreGroups(batch) && n < |batch| && AreFresh(before.rows, batch[n].items)
      requires NewAreReferenced(Start(), before) && NewAreReferenced(before, Now())
      requires rows.Keys == before.rows.Keys
      requires forall id | id in rows && id !in Ids(batch[n].items) :: rows[id] == before.rows[id]
      ensures NewAreReferenced(Start(), Now())
    {
      hide Run.Recorded, Run.Tracking, Segregated, Run.IsCompleteGroup, Run.RootedAt, IsLegacyKeyOfARow;
      GroupMapsToItsSource(batch[n].key, batch[n].items);
      forall k | k in objects && k !in Start().objects
        ensures References(Now(), k)
      {
        NewKeyIsNoLegacyKey(k);
        if k in before.objects {
          StillReferenced(before, batch[n].key, batch[n].items, k);
        }
      }
    }

    lemma StillReferenced(before: World, source: string, docs: seq<Doc>, key: string)
      requires IsGroupAt(source, docs) && AreFresh(before.rows, docs) && key != source && References(before, key)
      requires rows.Keys == before.rows.Keys
      requires forall id | id in rows && id !in Ids(docs) :: rows[id] == before.rows[id]
      ensures References(Now(), key)
    {
      var id :| id in before.rows && before.rows[id].path == Some(key);
      assert forall d | d in docs :: d.id != id;
      assert rows[id].path == Some(key);
    }

    lemma NewKeyIsNoLegacyKey(key: string)
      requires Valid() && keyed && key in objects && key !in Start().objects
      ensures !IsLegacyKeyOfARow(Now(), key)
    {
      hide Run.Recorded, Run.Tracking, Segregated, IsLegacyKeyOfARow;
      assert IsDueAtStart(Start(), key, objects[key]);
      assert IsTargetKey(key);
      TargetIsNoLegacyKey(key);
    }

    /** What the migration phase has reached and counted after one more group. */
    lemma BatchGoesOn(before: World, batch: seq<Group<string, Doc>>, n: nat, rows0: nat, removed0: nat, kept0: nat,
                      outcome: Option<Outcome>, rows1: nat, removed1: nat, kept1: nat)
      requires Valid() && AreGroups(batch) && n < |batch|
      requires isolated ==> AllSelectedFetched()
      requires Bounded(before) && NoLoss(before, Now())
      requires keyed ==>
                 && AreFreshFrom(before, Start(), batch, n)
                 && forall d | d in batch[n].items :: Passes(before, d.id) == Passes(Start(), d.id)
      requires IsMigrated(before, Start(), batch[..n], rows0, kept0)
      requires keyed && reliable ==> IsCounted(before, Start(), batch[..n], rows0, removed0, kept0)
      requires removed1 == removed0 +
                 (if outcome.Some? && outcome.value.failedRows == 0 && outcome.value.sourceRemoved then 1 else 0)
      requires IsGroupStep(before, batch[n].key, batch[n].items, outcome)
      requires keyed && reliable ==> NewAreReferenced(Start(), before)
      requires rows1 == rows0 + (if outcome.Some? then outcome.value.migratedRows else 0)
      requires kept1 == kept0 +
                 (if outcome.Some? && outcome.value.failedRows == 0 && !outcome.value.sourceRemoved then 1 else 0)
      ensures keyed ==> AreFreshFrom(Now(), Start(), batch, n + 1)
      ensures keyed ==> forall k | k in before.objects && k !in objects :: IsTargetKey(k) || k == batch[n].key
      ensures IsMigrated(Now(), Start(), batch[..n + 1], rows1, kept1)
      ensures keyed && reliable ==> IsCounted(Now(), Start(), batch[..n + 1], rows1, removed1, kept1)
      ensures keyed && reliable ==> NewAreReferenced(Start(), Now())
    {
      hide Run.NewAreReferenced;
      hide Run.Recorded, Run.Tracking, Run.RootedAt, Segregated, AreRehomed, Run.IsCompleteGroup, Run.IsMigrated;
      hide Run.AllSelectedFetched, TargetsOf, Run.AreMoved, Run.IsVacated, AreFinal, IsAbandoned, References, Passes;
      hide Run.IsCounted, Run.Counts, NoLoss, Bounded, Run.IsGroupAt, Run.IsTargetKey, Run.AreFresh;
      if keyed {
        TargetsOfGroup(batch[n].key, batch[n].items);
        StillFresh(before, batch, n);
      }
      if complete {
        GroupIsVacated(before, batch[n].key, batch[n].items, outcome.value);
      }
      if keyed && reliable {
        CountedOneMore(before, batch, n, rows0, removed0, kept0, outcome.value);
        NewStayReferenced(before, batch, n);
      }
      BatchGrows(before, batch, n, rows0, kept0, outcome, rows1, kept1);
    }

    method MigrateBatch(batch: seq<Group<string, Doc>>)
    returns (migratedRows: nat, sourcesRemoved: nat, sourcesKept: nat)
      requires Valid() && AreGroups(batch)
      requires keyed ==> AreFreshFrom(Now(), Start(), batch, 0) && Now() == Start()
      requires isolated ==> AllSelectedFetched()
      modifies this`rows, this`objects, this`nextId, this`history, this`failures
      ensures Valid() && Start() == old(Start()) && old(history) <= history && old(failures) <= failures
      ensures isolated ==> AllSelectedFetched()
      ensures keyed ==> forall k | k in old(objects) && k !in objects :: IsTargetKey(k) || k in KeysOf(batch)
      ensures IsMigrated(Now(), Start(), batch, migratedRows, sourcesKept)
      ensures keyed && reliable ==> IsCounted(Now(), Start(), batch, migratedRows, sourcesRemoved, sourcesKept)
      ensures keyed && reliable ==> NewAreReferenced(Start(), Now())
      ensures keyed && reliable && migratedRows == Size(batch) ==> failures == old(failures)
      ensures |failures| + migratedRows >= |old(failures)| + Size(batch)
      ensures reliable && isolated ==> |failures| + migratedRows == |old(failures)| + Size(batch)
    {
      hide Run.NewAreReferenced;
      hide Run.Recorded, Run.Tracking, Run.RootedAt, Segregated, AreRehomed, Run.IsCompleteGroup, Run.IsMigrated;
      hide Run.AllSelectedFetched, TargetsOf, Run.AreMoved, Run.IsVacated, AreFinal, IsAbandoned, References, Passes;
      hide Run.IsCounted, Run.IsGroupStep, Run.AreFreshFrom, NoLoss, Bounded, Size;
      migratedRows, sourcesRemoved, sourcesKept := 0, 0, 0;
      NothingMigrated();
      if keyed {
        NothingCounted([]);
        FewerAreReferenced(Start(), Start());
      }
      ghost var keys := KeysOf(batch);
      NoGroups(batch);
      for n := 0 to |batch|
        invariant Valid() && Start() == old(Start()) && old(history) <= history && old(failures) <= failures
        invariant isolated ==> AllSelectedFetched()
        invariant keyed ==> AreFreshFrom(Now(), Start(), batch, n)
        invariant keyed ==> forall k | k in old(objects) && k !in objects :: IsTargetKey(k) || k in keys
        invariant IsMigrated(Now(), Start(), batch[..n], migratedRows, sourcesKept)
        invariant keyed && reliable ==> IsCounted(Now(), Start(), batch[..n], migratedRows, sourcesRemoved, sourcesKept)
        invariant keyed && reliable ==> NewAreReferenced(Start(), Now())
        invariant migratedRows <= Size(batch[..n])
        invariant keyed && reliable && migratedRows == Size(batch[..n]) ==> failures == old(failures)
        invariant |failures| + migratedRows >= |old(failures)| + Size(batch[..n])
        invariant reliable && isolated ==> |failures| + migratedRows == |old(failures)| + Size(batch[..n])
      {
        ghost var before, earlier := Now(), history;
        ghost var rowsBefore, removedBefore, keptBefore := migratedRows, sourcesRemoved, sourcesKept;
        SizeOfPrefix(batch, n);
        if keyed {
          GroupPasses(batch, n);
        }
        assert batch[n] in batch;
        var outcome := MigrateNext(batch[n].key, batch[n].items);
        if outcome.Some? {
          migratedRows := migratedRows + outcome.value.migratedRows;
          if outcome.value.failedRows == 0 {
            if outcome.value.sourceRemoved {
              sourcesRemoved := sourcesRemoved + 1;
            } else {
              sourcesKept := sourcesKept + 1;
            }
          }
        }
        HistoryKeeps(earlier);
        BatchGoesOn(before, batch, n, rowsBefore, removedBefore, keptBefore, outcome, migratedRows, sourcesRemoved,
                    sourcesKept);
      }
      assert batch[..|batch|] == batch;
    }

    lemma NoGroups(batch: seq<Group<string, Doc>>)
      ensures Size(batch[..0]) == 0
    {
    }

    lemma GroupPasses(batch: seq<Group<string, Doc>>, n: nat)
      requires Valid() && keyed && AreGroups(batch) && n < |batch| && AreFreshFrom(Now(), Start(), batch, n)
      ensures forall d | d in batch[n].items :: Passes(Now(), d.id) == Passes(Start(), d.id)
    {
      SamePasses(batch[n].key, batch[n].items);
    }

    lemma TargetsOfGroup(source: string, docs: seq<Doc>)
      requires IsGroupAt(source, docs)
      ensures forall k | k in TargetsOf(docs) :: IsTargetKey(k)
    {
      forall k | k in TargetsOf(docs)
        ensures IsTargetKey(k)
      {
        var d :| d in docs && IsCandidate(d.row) && Target(d.row) == k;
        assert Known(d);
      }
    }

    /** Every row of the group has been moved. */
    static ghost predicate AllMoved(w: World, docs: seq<Doc>) {
      forall d | d in docs :: IsCandidate(d.row) && d.id in w.rows && w.rows[d.id] == Moved(d.row)
    }

    /** The keys of the groups that were moved as a whole and still name an object. */
    static ghost function KeptKeys(w: World, batch: seq<Group<string, Doc>>): set<string> {
      set g | g in batch && AllMoved(w, g.items) && g.key in w.objects :: g.key
    }

    /** On a quiet table with reliable calls: what the counters of the migration phase stand for. */
    static ghost predicate IsCounted(w: World, start: World, batch: seq<Group<string, Doc>>, migratedRows: nat,
                                     sourcesRemoved: nat, sourcesKept: nat) {
      && migratedRows == |Changed(start.rows, w.rows)|
      && (forall id | id in Changed(start.rows, w.rows) :: exists g | g in batch :: id in Ids(g.items))
      && sourcesKept == |KeptKeys(w, batch)|
      && sourcesRemoved == |Gone(start.objects, w.objects)|
    }

    lemma NothingCounted(batch: seq<Group<string, Doc>>)
      requires Valid() && keyed && AreGroups(batch) && Now() == Start()
      ensures IsCounted(Now(), Start(), batch, 0, 0, 0)
    {
      hide Run.Recorded, Run.Tracking;
      forall g | g in batch
        ensures !AllMoved(Now(), g.items)
      {
        var d := g.items[0];
        assert d in g.items && Known(d);
        MovedIsElsewhere(d.row);
      }
      assert Changed(Start().rows, rows) == {};
      assert KeptKeys(Now(), batch) == {};
    }

    /** The rows of a group that was fresh changed, and no others. */
    lemma RowsCountedOneMore(before: World, batch: seq<Group<string, Doc>>, n: nat, rows0: nat, migrated: nat)
      requires Valid() && keyed && AreGroups(batch) && n < |batch| && AreFresh(before.rows, batch[n].items)
      requires rows0 == |Changed(Start().rows, before.rows)|
      requires forall id | id in Changed(Start().rows, before.rows) :: exists g | g in batch[..n] :: id in Ids(g.items)
      requires Counts(before.rows, rows, batch[n].items, migrated) && rows.Keys == before.rows.Keys
      requires forall id | id in rows && id !in Ids(batch[n].items) :: rows[id] == before.rows[id]
      ensures rows0 + migrated == |Changed(Start().rows, rows)|
      ensures forall id | id in Changed(Start().rows, rows) :: exists g | g in batch[..n + 1] :: id in Ids(g.items)
    {
      hide Run.Recorded, Run.Tracking;
      assert batch[..n + 1] == batch[..n] + [batch[n]];
      forall id | id in rows && rows[id] != before.rows[id]
        ensures before.rows[id] == Start().rows[id]
      {
        var d :| d in batch[n].items && d.id == id;
        assert Known(d) && before.rows[id] == d.row;
      }
      ChangesAddUp(Start().rows, before.rows, rows);
      forall id | id in Changed(Start().rows, rows)
        ensures exists g | g in batch[..n + 1] :: id in Ids(g.items)
      {
        if id in Changed(Start().rows, before.rows) {
          var g :| g in batch[..n] && id in Ids(g.items);
          assert g in batch[..n + 1];
        } else {
          assert batch[n] in batch[..n + 1] && id in Ids(batch[n].items);
        }
      }
    }

    /** A group that was migrated with no failed row has been moved as a whole. */
    lemma WhollyMovedExactlyWhen(before: World, source: string, docs: seq<Doc>, outcome: Outcome)
      requires Valid() && IsGroupAt(source, docs)
      requires AreMoved(before, rows, docs, outcome.migratedRows)
      requires outcome.migratedRows + outcome.failedRows == |docs|
      ensures outcome.failedRows == 0 <==> AllMoved(Now(), docs)
    {
      hide Run.Recorded, Run.Tracking, Run.RootedAt, Passes;
      forall d | d in docs
        ensures d.id in rows && (rows[d.id] == Moved(d.row) <==> Passes(before, d.id))
      {
        MovedIsElsewhere(d.row);
      }
    }

    /** The groups done before are kept as they were; the next one adds its key if its object stays. */
    lemma KeysCountedOneMore(before: World, batch: seq<Group<string, Doc>>, n: nat, outcome: Outcome)
      requires Valid() && keyed && AreGroups(batch) && n < |batch|
      requires Bounded(before) && NoLoss(before, Now()) && rows.Keys == before.rows.Keys
      requires forall id | id in rows && id !in Ids(batch[n].items) :: rows[id] == before.rows[id]
      requires forall k | k in objects :: k in before.objects || k in TargetsOf(batch[n].items)
      requires forall k | k in before.objects && k != batch[n].key && k !in TargetsOf(batch[n].items) :: k in objects
      requires outcome.failedRows == 0 <==> AllMoved(Now(), batch[n].items)
      requires outcome.sourceRemoved <==> outcome.failedRows == 0 && batch[n].key !in objects
      ensures |KeptKeys(Now(), batch[..n + 1])| ==
                |KeptKeys(before, batch[..n])|
                + if outcome.failedRows == 0 && !outcome.sourceRemoved then 1 else 0
    {
      hide Run.Recorded, Run.Tracking, Run.RootedAt, TargetsOf, NoLoss, Bounded, Run.AreGroups;
      assert batch[..n + 1] == batch[..n] + [batch[n]];
      hide Run.AllMoved, Run.KeptKeys;
      forall g | g in batch[..n]
        ensures g.key != batch[n].key && (g.key in before.objects <==> g.key in objects)
        ensures AllMoved(before, g.items) <==> AllMoved(Now(), g.items)
      {
        var i :| 0 <= i < n && batch[i] == g;
        DoneGroupStays(before, batch, i, n);
        GroupsAreApart(batch, i, n);
        SameRowsMoved(before, batch, i, n);
      }
      KeptOneMore(before, Now(), batch[..n], batch[n], outcome.failedRows == 0 && !outcome.sourceRemoved);
    }

    static lemma KeptOneMore(before: World, w: World, batch: seq<Group<string, Doc>>, g: Group<string, Doc>, kept: bool)
      requires forall x | x in batch ::
                 && x.key != g.key && (x.key in before.objects <==> x.key in w.objects)
                 && (AllMoved(before, x.items) <==> AllMoved(w, x.items))
      requires kept <==> AllMoved(w, g.items) && g.key in w.objects
      ensures |KeptKeys(w, batch + [g])| == |KeptKeys(before, batch)| + if kept then 1 else 0
    {
      hide Run.AllMoved;
      assert KeptKeys(w, batch + [g]) == KeptKeys(before, batch) + if kept then {g.key} else {};
      assert g.key !in KeptKeys(before, batch);
    }

    lemma SameRowsMoved(before: World, batch: seq<Group<string, Doc>>, i: nat, n: nat)
      requires i < |batch| && n < |batch| && rows.Keys == before.rows.Keys
      requires forall id | id in rows && id !in Ids(batch[n].items) :: rows[id] == before.rows[id]
      requires forall d | d in batch[i].items :: d.id !in Ids(batch[n].items)
      ensures AllMoved(before, batch[i].items) <==> AllMoved(Now(), batch[i].items)
    {
    }

    lemma NothingMigrated()
      requires Valid()
      ensures IsMigrated(Now(), Start(), [], 0, 0)
    {
    }

    /** What one run has fetched and how it split it. */
    ghost predicate IsPlan(docs: seq<Doc>, alreadyScoped: seq<Doc>, candidates: seq<Doc>,
                           groups: seq<Group<string, Doc>>)
      reads this`fetched
    {
      && (forall d | d in docs :: Known(d))
      && (isolated ==>
            forall id | id in fetched && IsPlaced(fetched[id]) :: Doc(id, fetched[id]) in docs)
      && (forall d :: d in alreadyScoped <==> d in docs && IsScoped(d.row))
      && (forall d :: d in candidates <==> d in docs && IsCandidate(d.row))
      && IsGroupedBy(candidates, PathOf, groups)
      && Size(groups) == |candidates|
      && (isolated ==> IsWholeSweep(alreadyScoped) && Ascending(candidates))
    }

    lemma FetchSawEverything(docs: seq<Doc>)
      requires Valid() && isolated && Unmoved()
      requires docs == Listing(rows, options.onlyCompany, nextId)
      requires forall d | d in docs :: Known(d)
      ensures AllSelectedFetched() && Ascending(docs)
      ensures forall id | id in fetched && IsPlaced(fetched[id]) :: Doc(id, fetched[id]) in docs
    {
      ListingAscends(rows, options.onlyCompany, nextId);
      ListingMembers(rows, options.onlyCompany, nextId);
      forall id | id in rows && IsPlaced(rows[id]) && Matches(rows[id], options.onlyCompany)
        ensures id in fetched
      {
        assert Doc(id, rows[id]) in docs;
      }
    }

    lemma PlannedGroups(docs: seq<Doc>, alreadyScoped: seq<Doc>, candidates: seq<Doc>, groups: seq<Group<string, Doc>>)
      requires Valid() && Unmoved() && IsPlan(docs, alreadyScoped, candidates, groups)
      ensures AreGroups(groups)
    {
      hide Run.Recorded, Run.Tracking, Run.RootedAt;
      forall i | 0 <= i < |groups|
        ensures IsGroupAt(groups[i].key, groups[i].items) && IsCompleteGroup(groups[i].key, groups[i].items)
        ensures isolated ==> Ascending(groups[i].items)
      {
        var key, items := groups[i].key, groups[i].items;
        ItemsOfMembers(candidates, PathOf, key);
        if isolated {
          ItemsAscend(candidates, key);
          forall id | id in fetched && IsCandidate(fetched[id]) && fetched[id].path == Some(key)
            ensures id in Ids(items)
          {
            assert Doc(id, fetched[id]) in docs;
            assert Doc(id, fetched[id]) in items;
          }
        }
      }
    }

    /** The planned group a fetched candidate belongs to. */
    lemma CandidateHasAGroup(docs: seq<Doc>, alreadyScoped: seq<Doc>, candidates: seq<Doc>,
                             groups: seq<Group<string, Doc>>, id: nat) returns (g: Group<string, Doc>)
      requires isolated && IsPlan(docs, alreadyScoped, candidates, groups)
      requires id in fetched && IsCandidate(fetched[id])
      ensures g in groups && Doc(id, fetched[id]) in g.items && g.key == fetched[id].path.value
    {
      var d := Doc(id, fetched[id]);
      assert d in candidates && PathOf(d).Some?;
      var i :| 0 <= i < |groups| && groups[i].key == PathOf(d).value;
      g := groups[i];
      ItemsOfMembers(candidates, PathOf, g.key);
    }

    ghost predicate MigrationIsFinished()
      reads this`rows, this`objects, this`nextId
    {
      IsFinished(Now(), options.onlyCompany)
    }

    /** The counters of an open gate say that every document was moved and that every legacy object is gone. */
    lemma GateIsSound(docs: seq<Doc>, alreadyScoped: seq<Doc>, candidates: seq<Doc>, groups: seq<Group<string, Doc>>,
                      between: World, migratedRows: nat, sourcesKept: nat, sweep: SweepResult)
      requires Valid() && keyed && AllSelectedFetched()
      requires IsPlan(docs, alreadyScoped, candidates, groups)
      requires IsMigrated(between, Start(), groups, migratedRows, sourcesKept)
      requires IsSwept(between, alreadyScoped, KeysOf(groups), sweep)
      requires migratedRows == |candidates| && sourcesKept == 0 && sweep.objectsRemoved == sweep.keysWithLeftovers
      ensures MigrationIsFinished()
    {
      hide Run.Recorded, Run.RootedAt, Segregated, Run.IsPlan, IsVerified, References;
      PlannedRows(docs, alreadyScoped, candidates, groups);
      forall id | id in rows && IsPlaced(rows[id]) && Matches(rows[id], options.onlyCompany)
        ensures IsScoped(rows[id]) && LegacyKey(rows[id]) !in objects
      {
        if IsCandidate(fetched[id]) {
          MovedIsScoped(fetched[id]);
          var g := CandidateHasAGroup(docs, alreadyScoped, candidates, groups, id);
          assert IsRehomed(between, Doc(id, fetched[id]));
        } else {
          assert Doc(id, fetched[id]) in alreadyScoped;
        }
      }
    }

    lemma PlannedRows(docs: seq<Doc>, alreadyScoped: seq<Doc>, candidates: seq<Doc>, groups: seq<Group<string, Doc>>)
      requires IsPlan(docs, alreadyScoped, candidates, groups)
      ensures Size(groups) == |candidates|
      ensures forall d | d in alreadyScoped :: Known(d) && IsScoped(d.row)
      ensures isolated ==> IsWholeSweep(alreadyScoped)
    {
    }

    /** Every row of a settled run is where it will stay. */
    lemma RowsAreFinal(docs: seq<Doc>, alreadyScoped: seq<Doc>, candidates: seq<Doc>, groups: seq<Group<string, Doc>>,
                       between: World)
      requires Valid() && settled && AllSelectedFetched()
      requires IsPlan(docs, alreadyScoped, candidates, groups)
      requires between.rows == rows && forall g | g in groups :: AreFinal(between, Start(), g.items)
      ensures forall id | id in rows :: id in Start().rows && rows[id] == FinalRow(Start(), id) && !Migrates(Now(), id)
    {
      hide Run.Recorded, Run.RootedAt, Segregated, Run.IsPlan, SameGoal, Ready, FinalObject;
      ReadyNow();
      SameRows();
      forall id | id in rows
        ensures id in Start().rows && rows[id] == FinalRow(Start(), id) && !Migrates(Now(), id)
      {
        if IsCandidate(rows[id]) {
          MovedIsScoped(rows[id]);
          assert id in fetched && fetched[id] == rows[id];
          var g := CandidateHasAGroup(docs, alreadyScoped, candidates, groups, id);
        }
      }
    }

    lemma SameRows()
      requires |history| > 0 && SameGoal(Start(), Now(), options.deleteSource)
      ensures forall id | id in rows :: id in Start().rows && FinalRow(Now(), id) == FinalRow(Start(), id)
    {
      hide FinalObject;
    }

    /** A key that a settled deleting run leaves in the bucket is not abandoned. */
    lemma LeftKeyIsNeeded(docs: seq<Doc>, alreadyScoped: seq<Doc>, candidates: seq<Doc>,
                          groups: seq<Group<string, Doc>>,
                          between: World, sweep: SweepResult, key: string)
      requires Valid() && settled && options.deleteSource && AllSelectedFetched() && key in objects
      requires IsPlan(docs, alreadyScoped, candidates, groups)
      requires IsSwept(between, alreadyScoped, KeysOf(groups), sweep)
      requires forall g | g in groups :: g.key in between.objects ==> !IsAbandoned(Start(), g.key)
      requires forall id | id in rows :: id in Start().rows && rows[id] == FinalRow(Start(), id)
      ensures !IsAbandoned(Start(), key)
    {
      hide Run.Recorded, Run.RootedAt, Segregated, Run.IsPlan, SameGoal, Ready, FinalRow, FinalObject;
      ReadyNow();
      SameGoalSameAbandoned(Start(), Now(), key, true);
      PlannedRows(docs, alreadyScoped, candidates, groups);
      if IsAbandoned(Start(), key) {
        var id :| id in rows && IsPlaced(rows[id]) && LegacyKey(rows[id]) == key;
        if IsCandidate(fetched[id]) {
          MovedIsScoped(fetched[id]);
          var g := CandidateHasAGroup(docs, alreadyScoped, candidates, groups, id);
        } else {
          assert Doc(id, fetched[id]) in alreadyScoped;
          if References(Now(), key) {
            ReferencedIsNotAbandoned(key);
          }
        }
      }
    }

    /** A settled run ends at rest: the goal it was heading for from the start. */
    lemma RestIsReached(docs: seq<Doc>, alreadyScoped: seq<Doc>, candidates: seq<Doc>, groups: seq<Group<string, Doc>>,
                        between: World, migratedRows: nat, sourcesKept: nat, sweep: SweepResult)
      requires Valid() && settled && AllSelectedFetched()
      requires IsPlan(docs, alreadyScoped, candidates, groups)
      requires IsMigrated(between, Start(), groups, migratedRows, sourcesKept)
      requires IsSwept(between, alreadyScoped, KeysOf(groups), sweep)
      ensures AtRest(Now(), options.deleteSource)
    {
      hide Run.Recorded, Run.Tracking, Run.RootedAt, Segregated, Run.IsPlan, Run.AllSelectedFetched, AreFinal;
      hide SameGoal, Ready, IsAbandoned, Migrates, FinalRow;
      ReadyNow();
      RowsAreFinal(docs, alreadyScoped, candidates, groups, between);
      if options.deleteSource {
        forall key | key in objects
          ensures !IsAbandoned(Now(), key)
        {
          LeftKeyIsNeeded(docs, alreadyScoped, candidates, groups, between, sweep, key);
          SameGoalSameAbandoned(Start(), Now(), key, true);
        }
      }
    }

    /** What a complete deleting run has done: its groups are vacated, and the sweep took what it takes. */
    ghost predicate IsCleared(between: World, alreadyScoped: seq<Doc>, groups: seq<Group<string, Doc>>,
                              sweep: SweepResult)
      reads this`rows, this`objects, this`nextId, this`history, this`fetched
      requires |history| > 0
    {
      && Bounded(between) && NoLoss(between, Now()) && RootedAt(Start(), between)
      && (forall g | g in groups :: IsVacated(between, Start(), g.key, g.items))
      && (forall k | k in Start().objects && k !in between.objects :: IsTargetKey(k) || k in KeysOf(groups))
      && IsSwept(between, alreadyScoped, KeysOf(groups), sweep)
    }

    lemma ClearedByTheRun(between: World, alreadyScoped: seq<Doc>, groups: seq<Group<string, Doc>>,
                          migratedRows: nat, sourcesKept: nat, sweep: SweepResult)
      requires |history| > 0 && complete && Bounded(between) && NoLoss(between, Now()) && RootedAt(Start(), between)
      requires IsMigrated(between, Start(), groups, migratedRows, sourcesKept)
      requires forall k | k in Start().objects && k !in between.objects :: IsTargetKey(k) || k in KeysOf(groups)
      requires IsSwept(between, alreadyScoped, KeysOf(groups), sweep)
      ensures IsCleared(between, alreadyScoped, groups, sweep)
    {
      hide Run.IsSwept, Run.IsVacated, NoLoss;
    }

    /** A row that was scoped at the start is still as it was. */
    lemma ScopedRowStays(id: nat)
      requires Valid() && isolated && id in Start().rows && IsScoped(Start().rows[id])
      ensures id in rows && rows[id] == Start().rows[id]
    {
      hide Run.Recorded, Run.Tracking;
    }

    /** The group of a key that some selected row had to leave at the start. */
    lemma LeavingRowHasAGroup(docs: seq<Doc>, alreadyScoped: seq<Doc>, candidates: seq<Doc>,
                              groups: seq<Group<string, Doc>>, id: nat, key: string) returns (g: Group<string, Doc>)
      requires Valid() && isolated && AllSelectedFetched()
      requires IsPlan(docs, alreadyScoped, candidates, groups) && IsLeaving(Start(), id, key, options.onlyCompany)
      ensures id in fetched && fetched[id] == Start().rows[id]
      ensures g in groups && Doc(id, fetched[id]) in g.items && g.key == key
    {
      hide Run.Recorded, Run.IsPlan;
      if rows[id] != Start().rows[id] {
        MovedIsScoped(fetched[id]);
      }
      g := CandidateHasAGroup(docs, alreadyScoped, candidates, groups, id);
    }

    /** A group's key was one to leave at the start. */
    lemma GroupKeyIsLeft(docs: seq<Doc>, alreadyScoped: seq<Doc>, candidates: seq<Doc>,
                         groups: seq<Group<string, Doc>>, key: string) returns (id: nat)
      requires Valid() && isolated && IsPlan(docs, alreadyScoped, candidates, groups) && key in KeysOf(groups)
      ensures id in Start().rows && IsLeaving(Start(), id, key, options.onlyCompany)
    {
      hide Run.Recorded;
      var g :| g in groups && g.key == key;
      ItemsOfMembers(candidates, PathOf, key);
      assert g.items[0] in g.items;
      id := g.items[0].id;
    }

    /**
     An object that was not there at a scoped row's own key came from a selected row of its company that left its
     legacy key.
     */
    lemma NewCopyRepairs(w: World, id: nat)
      requires Valid() && keyed && RootedAt(Start(), w) && id in Start().rows && IsScoped(Start().rows[id])
      requires IsLegacyKeyOfARow(Start(), LegacyKey(Start().rows[id]))
      requires !IsCompanyScoped(LegacyKey(Start().rows[id]), Start().rows[id].company.value)
      requires var p := Start().rows[id].path.value; p in w.objects && p !in Start().objects
      ensures IsRepaired(Start(), id, options.onlyCompany)
      ensures var key := LegacyKey(Start().rows[id]);
              key in Start().objects && Start().objects[key] == w.objects[Start().rows[id].path.value]
    {
      hide Run.Recorded;
      var row := Start().rows[id];
      var p := row.path.value;
      assert IsDueAtStart(Start(), p, w.objects[p]);
      var other :| other in fetched && IsCandidate(fetched[other]) && Target(fetched[other]) == p
                   && fetched[other].path.value in Start().objects
                   && Start().objects[fetched[other].path.value] == w.objects[p];
      DeriveThenScope(p, row.company.value);
      ScopedPathsAreInjective(LegacyKey(row), row.company.value,
                              fetched[other].path.value, fetched[other].company.value);
      assert IsLeaving(Start(), other, LegacyKey(row), options.onlyCompany);
    }

    /** Legacy keys of rows are not scoped to the rows' companies. */
    lemma KeysAreSegregated(id: nat)
      requires Valid() && keyed && id in Start().rows && IsScoped(Start().rows[id])
      ensures IsLegacyKeyOfARow(Start(), LegacyKey(Start().rows[id]))
      ensures !IsCompanyScoped(LegacyKey(Start().rows[id]), Start().rows[id].company.value)
      ensures !IsTargetKey(LegacyKey(Start().rows[id]))
    {
      hide Run.Recorded;
      ScopedRowStays(id);
      var key := LegacyKey(rows[id]);
      assert IsLegacyKeyOfARow(Now(), key);
      if IsTargetKey(key) {
        TargetIsNoLegacyKey(key);
      }
    }

    /** No row comes to or leaves a legacy key that no selected row had to leave. */
    lemma SameReferences(docs: seq<Doc>, alreadyScoped: seq<Doc>, candidates: seq<Doc>, groups: seq<Group<string, Doc>>,
                         key: string)
      requires Valid() && keyed && IsPlan(docs, alreadyScoped, candidates, groups)
      requires key !in KeysOf(groups) && !IsTargetKey(key)
      ensures References(Now(), key) <==> References(Start(), key)
    {
      hide Run.Recorded, Run.IsPlan;
      forall id | id in rows && rows[id] != Start().rows[id]
        ensures rows[id].path != Some(key) && Start().rows[id].path != Some(key)
      {
        assert Target(fetched[id]) != key by {
          assert IsTargetKey(Target(fetched[id]));
        }
        if fetched[id].path == Some(key) {
          var g := CandidateHasAGroup(docs, alreadyScoped, candidates, groups, id);
        }
      }
      forall id | id in Start().rows
        ensures rows[id].path == Some(key) <==> Start().rows[id].path == Some(key)
      {
      }
    }

    /** The scoped rows that the sweep saw are the selected scoped rows of the start. */
    lemma SweepRowsAtStart(docs: seq<Doc>, alreadyScoped: seq<Doc>, candidates: seq<Doc>,
                           groups: seq<Group<string, Doc>>)
      requires Valid() && isolated && AllSelectedFetched() && IsPlan(docs, alreadyScoped, candidates, groups)
      ensures forall d | d in alreadyScoped ::
                IsScoped(d.row) && d.id in Start().rows && Start().rows[d.id] == d.row
                && Matches(d.row, options.onlyCompany)
      ensures forall id | id in Start().rows && IsScoped(Start().rows[id])
                && Matches(Start().rows[id], options.onlyCompany) ::
                Doc(id, Start().rows[id]) in alreadyScoped
    {
      hide Run.Recorded;
      PlannedRows(docs, alreadyScoped, candidates, groups);
      forall id | id in Start().rows && IsScoped(Start().rows[id]) && Matches(Start().rows[id], options.onlyCompany)
        ensures Doc(id, Start().rows[id]) in alreadyScoped
      {
        ScopedRowStays(id);
        assert id in fetched;
      }
    }

    /** A scoped row's own copy after the migration is what it was, unless a row leaving its legacy key made one. */
    lemma SameOwnCopy(docs: seq<Doc>, alreadyScoped: seq<Doc>, candidates: seq<Doc>, groups: seq<Group<string, Doc>>,
                      between: World, sweep: SweepResult, id: nat)
      requires Valid() && complete && options.deleteSource && AllSelectedFetched()
      requires IsPlan(docs, alreadyScoped, candidates, groups) && IsCleared(between, alreadyScoped, groups, sweep)
      requires id in Start().rows && IsScoped(Start().rows[id]) && LegacyKey(Start().rows[id]) !in KeysOf(groups)
      ensures var p := Start().rows[id].path.value;
              && (p in between.objects <==> p in Start().objects)
              && (p in between.objects ==> between.objects[p] == Start().objects[p])
    {
      hide Run.Recorded, Run.Tracking, Run.IsSwept, Run.IsVacated, NoLoss, Bounded, Run.IsPlan;
      KeysAreSegregated(id);
      var p := Start().rows[id].path.value;
      if p in between.objects && p !in Start().objects {
        NewCopyRepairs(between, id);
        var other :| other in Start().rows
          && IsLeaving(Start(), other, LegacyKey(Start().rows[id]), options.onlyCompany);
        var g := LeavingRowHasAGroup(docs, alreadyScoped, candidates, groups, other, LegacyKey(Start().rows[id]));
      }
      if p in KeysOf(groups) {
        var other := GroupKeyIsLeft(docs, alreadyScoped, candidates, groups, p);
        MovedIsScoped(Start().rows[other]);
        OwnKeyIsNoLegacyKey(id, other);
      }
    }

    lemma OwnKeyIsNoLegacyKey(id: nat, other: nat)
      requires Valid() && keyed && id in Start().rows && IsScoped(Start().rows[id])
      requires other in Start().rows && IsPlaced(Start().rows[other])
      ensures LegacyKey(Start().rows[other]) != Start().rows[id].path.value
    {
      hide Run.Recorded;
      ScopedRowStays(id);
      if rows[other] != Start().rows[other] {
        MovedIsScoped(fetched[other]);
      }
      assert IsPlaced(rows[other]) && LegacyKey(rows[other]) == LegacyKey(Start().rows[other]);
      assert rows[id].company.Some? && IsCompanyScoped(rows[id].path.value, rows[id].company.value);
    }

    /** The sweep took a key that no group handled exactly when the start already called for it. */
    lemma SweptExactlyWhen(docs: seq<Doc>, alreadyScoped: seq<Doc>, candidates: seq<Doc>,
                           groups: seq<Group<string, Doc>>,
                           between: World, sweep: SweepResult, key: string)
      requires Valid() && complete && options.deleteSource && AllSelectedFetched()
      requires IsPlan(docs, alreadyScoped, candidates, groups) && IsCleared(between, alreadyScoped, groups, sweep)
      requires key !in KeysOf(groups) && !IsTargetKey(key) && key in Start().objects
      ensures key in between.objects
      ensures SweptAway(between, alreadyScoped, key) <==> Sweeps(Start(), key, options.onlyCompany)
    {
      hide Run.Recorded, Run.Tracking, Run.RootedAt, Run.IsPlan, Run.IsCleared, Run.AllSelectedFetched, SweepPasses;
      hide Segregated;
      SweepRowsAtStart(docs, alreadyScoped, candidates, groups);
      SameReferences(docs, alreadyScoped, candidates, groups, key);
      KeyIsStillThere(between, alreadyScoped, groups, sweep, key);
      forall d | d in alreadyScoped && LegacyKey(d.row) == key
        ensures IsSweepRow(Start(), d.id, key, options.onlyCompany)
        ensures SweepPasses(between, d.row, key) <==> SweepPasses(Start(), d.row, key)
      {
        SameOwnCopy(docs, alreadyScoped, candidates, groups, between, sweep, d.id);
        SamePassing(between, Start(), d.row, key);
      }
      forall id | id in Start().rows && IsSweepRow(Start(), id, key, options.onlyCompany)
        ensures Doc(id, Start().rows[id]) in alreadyScoped
      {
      }
    }

    /** The migration phase leaves the object of a key that no group handled. */
    lemma KeyIsStillThere(between: World, alreadyScoped: seq<Doc>, groups: seq<Group<string, Doc>>, sweep: SweepResult,
                          key: string)
      requires Valid() && keyed && IsCleared(between, alreadyScoped, groups, sweep)
      requires key !in KeysOf(groups) && !IsTargetKey(key) && key in Start().objects
      ensures key in between.objects && between.objects[key] == Start().objects[key]
      ensures References(between, key) <==> References(Now(), key)
    {
      hide Run.Recorded, Run.Tracking, Run.IsVacated, NoLoss, Bounded, Segregated, Run.IsDueAtStart, Run.IsTargetKey;
      SweepKeepsRows(between, alreadyScoped, groups, sweep);
      assert RootedAt(Start(), between);
    }

    lemma SamePassing(a: World, b: World, row: Row, key: string)
      requires row.path.Some? && key in a.objects && key in b.objects && a.objects[key] == b.objects[key]
      requires row.path.value in a.objects <==> row.path.value in b.objects
      requires row.path.value in a.objects ==> a.objects[row.path.value] == b.objects[row.path.value]
      ensures SweepPasses(a, row, key) <==> SweepPasses(b, row, key)
    {
    }

    /** The legacy object of a row that was scoped at the start goes exactly when the start already called for it. */
    lemma KeyGoesExactlyWhen(docs: seq<Doc>, alreadyScoped: seq<Doc>, candidates: seq<Doc>,
                             groups: seq<Group<string, Doc>>,
                             between: World, sweep: SweepResult, id: nat)
      requires Valid() && complete && options.deleteSource && AllSelectedFetched()
      requires IsPlan(docs, alreadyScoped, candidates, groups) && IsCleared(between, alreadyScoped, groups, sweep)
      requires id in Start().rows && IsScoped(Start().rows[id]) && LegacyKey(Start().rows[id]) in Start().objects
      ensures var key := LegacyKey(Start().rows[id]);
              key !in objects <==>
              Vacates(Start(), key, options.onlyCompany) || Sweeps(Start(), key, options.onlyCompany)
    {
      hide Run.Recorded, Run.Tracking, Run.IsPlan, NoLoss, Bounded, Run.AllSelectedFetched, Run.SweptAway, SweepPasses;
      hide Gone, Run.SweptLeft;
      var key := LegacyKey(Start().rows[id]);
      KeysAreSegregated(id);
      if key in KeysOf(groups) {
        var leaving := GroupKeyIsLeft(docs, alreadyScoped, candidates, groups, key);
        var g :| g in groups && g.key == key;
        assert IsVacated(between, Start(), key, g.items);
        assert References(Start(), key);
      } else {
        SweptExactlyWhen(docs, alreadyScoped, candidates, groups, between, sweep, key);
        if leaving :| leaving in Start().rows && IsLeaving(Start(), leaving, key, options.onlyCompany) {
          var g := LeavingRowHasAGroup(docs, alreadyScoped, candidates, groups, leaving, key);
        }
      }
    }

    lemma LostIsGone(docs: seq<Doc>, alreadyScoped: seq<Doc>, candidates: seq<Doc>, groups: seq<Group<string, Doc>>,
                     between: World, sweep: SweepResult, id: nat)
      requires Valid() && complete && options.deleteSource && AllSelectedFetched()
      requires IsPlan(docs, alreadyScoped, candidates, groups) && IsCleared(between, alreadyScoped, groups, sweep)
      requires IsLost(Start(), id, options.onlyCompany)
      ensures !Recoverable(Now(), id)
    {
      hide Run.Recorded, Run.Tracking, Run.IsPlan, Run.IsCleared, Run.AllSelectedFetched, IsRepaired, Segregated;
      hide Vacates, Sweeps;
      ScopedRowStays(id);
      KeysAreSegregated(id);
      KeyGoesExactlyWhen(docs, alreadyScoped, candidates, groups, between, sweep, id);
      var row := rows[id];
      if row.path.value in objects && row.path.value !in Start().objects {
        NewCopyRepairs(Now(), id);
      }
    }

    lemma BrokenIsKept(docs: seq<Doc>, alreadyScoped: seq<Doc>, candidates: seq<Doc>, groups: seq<Group<string, Doc>>,
                       between: World, sweep: SweepResult, id: nat)
      requires Valid() && complete && options.deleteSource && AllSelectedFetched()
      requires IsPlan(docs, alreadyScoped, candidates, groups) && IsCleared(between, alreadyScoped, groups, sweep)
      requires IsBroken(Start(), id) && !IsLost(Start(), id, options.onlyCompany)
      ensures Recoverable(Now(), id)
    {
      hide Run.Recorded, Run.Tracking, Run.IsPlan, Run.IsCleared, Run.AllSelectedFetched, Segregated, IsRepaired;
      hide Vacates, Sweeps;
      ScopedRowStays(id);
      KeyGoesExactlyWhen(docs, alreadyScoped, candidates, groups, between, sweep, id);
      var key := LegacyKey(rows[id]);
      if key in objects {
        assert objects[key] == Start().objects[key];
      } else {
        RepairedIsServed(docs, alreadyScoped, candidates, groups, between, sweep, id);
      }
    }

    lemma RepairedIsServed(docs: seq<Doc>, alreadyScoped: seq<Doc>, candidates: seq<Doc>,
                           groups: seq<Group<string, Doc>>,
                           between: World, sweep: SweepResult, id: nat)
      requires Valid() && complete && options.deleteSource && AllSelectedFetched()
      requires IsPlan(docs, alreadyScoped, candidates, groups) && IsCleared(between, alreadyScoped, groups, sweep)
      requires IsBroken(Start(), id) && IsRepaired(Start(), id, options.onlyCompany)
      requires var key := LegacyKey(Start().rows[id]);
               Vacates(Start(), key, options.onlyCompany) || Sweeps(Start(), key, options.onlyCompany)
      ensures Recoverable(Now(), id)
    {
      hide Run.Recorded, Run.Tracking, Run.IsPlan, Run.AllSelectedFetched, Bounded, Segregated, Vacates, Run.IsSwept;
      ScopedRowStays(id);
      KeysAreSegregated(id);
      var row := rows[id];
      var other :| other in Start().rows && IsLeaving(Start(), other, LegacyKey(row), options.onlyCompany)
                   && Start().rows[other].company == row.company;
      assert References(Start(), LegacyKey(row));
      var g := LeavingRowHasAGroup(docs, alreadyScoped, candidates, groups, other, LegacyKey(row));
      DeriveThenScope(row.path.value, row.company.value);
      assert IsVacated(between, Start(), g.key, g.items);
      SweepKeepsRows(between, alreadyScoped, groups, sweep);
      assert IsRehomed(between, Doc(other, fetched[other])) && KeepsRow(between, Now(), other);
      assert row.path.value in objects;
      NewCopyRepairs(Now(), id);
    }

    lemma SweepKeepsRows(between: World, alreadyScoped: seq<Doc>, groups: seq<Group<string, Doc>>, sweep: SweepResult)
      requires isolated && IsSwept(between, alreadyScoped, KeysOf(groups), sweep)
      ensures between.rows == rows
    {
    }

    /** A complete deleting run loses the last good bytes of exactly the rows that were lost from the start. */
    lemma LossIsExact(docs: seq<Doc>, alreadyScoped: seq<Doc>, candidates: seq<Doc>, groups: seq<Group<string, Doc>>,
                      between: World, sweep: SweepResult)
      requires Valid() && complete && options.deleteSource && AllSelectedFetched()
      requires IsPlan(docs, alreadyScoped, candidates, groups) && IsCleared(between, alreadyScoped, groups, sweep)
      ensures LosesExactlyTheLost()
    {
      hide Run.Recorded, Run.Tracking, Run.RootedAt, Run.IsPlan, Run.IsCleared, Run.AllSelectedFetched, IsLost;
      forall id | id in Start().rows && Recoverable(Start(), id)
        ensures Recoverable(Now(), id) <==> !IsLost(Start(), id, options.onlyCompany)
      {
        if IsLost(Start(), id, options.onlyCompany) {
          LostIsGone(docs, alreadyScoped, candidates, groups, between, sweep, id);
        } else if IsBroken(Start(), id) {
          BrokenIsKept(docs, alreadyScoped, candidates, groups, between, sweep, id);
        } else {
          IntactStays(id);
        }
      }
    }

    ghost predicate LosesExactlyTheLost()
      reads this`rows, this`objects, this`nextId, this`history
      requires |history| > 0
    {
      forall id | id in Start().rows && Recoverable(Start(), id) ::
        Recoverable(Now(), id) <==> !IsLost(Start(), id, options.onlyCompany)
    }

    lemma IntactStays(id: nat)
      requires Valid() && isolated && id in Start().rows && Recoverable(Start(), id) && !IsBroken(Start(), id)
      ensures Recoverable(Now(), id)
    {
      assert Content(Start(), id).Some?;
      assert id in rows;
      NothingIsLostLater(history, 0, |history| - 1);
      assert KeepsRow(Start(), Now(), id);
    }

    /** Fetches, classifies and groups. */
    method Plan() returns (c: Call<(seq<Doc>, seq<Doc>, seq<Group<string, Doc>>)>, ghost docs: seq<Doc>)
      requires Valid() && fetched == map[]
      requires isolated ==> Now() == Start()
      modifies this`rows, this`objects, this`nextId, this`history, this`fetched
      ensures Valid() && Start() == old(Start()) && Unmoved()
      ensures isolated ==> Now() == old(Now())
      ensures c.Done? && isolated ==> AllSelectedFetched()
      ensures c.Done? ==> IsPlan(docs, c.value.0, c.value.1, c.value.2) && AreGroups(c.value.2)
      ensures reliable ==> c.Done?
    {
      hide Run.Recorded, Run.Tracking, Run.RootedAt, Segregated, Those, PlacementOf, Run.AllSelectedFetched;
      hide IsGroupedBy, SameGoal, Ready, Bounded, Run.AreGroups, Listing, Ascending;
      var page := FetchAllDocuments();
      docs := [];
      if isolated && page.Done? {
        FetchSawEverything(page.value);
      }
      if page.Threw? {
        return Threw, [];
      }
      docs := page.value;
      var alreadyScoped, candidates, unmapped := Classify(page.value);
      ThoseMembers(page.value);
      if isolated {
        ThoseAscend(page.value, CandidateRow);
      }
      var groups := GroupBy(candidates, PathOf);
      PlannedGroups(docs, alreadyScoped, candidates, groups);
      c := Done((alreadyScoped, candidates, groups));
    }

    /** The migration phase; a dry run only selects its batch. */
    method Migrate(groups: seq<Group<string, Doc>>)
      returns (batch: seq<Group<string, Doc>>, migratedRows: nat, sourcesRemoved: nat, sourcesKept: nat)
      requires Valid() && AreGroups(groups) && Unmoved()
      requires isolated ==> Now() == Start()
      requires isolated ==> AllSelectedFetched()
      modifies this`rows, this`objects, this`nextId, this`history, this`failures
      ensures Valid() && Start() == old(Start()) && old(history) <= history && old(failures) <= failures
      ensures isolated ==> AllSelectedFetched()
      ensures !options.apply ==> Now() == old(Now()) && migratedRows == 0
      ensures migratedRows <= Size(groups)
      ensures keyed && migratedRows == Size(groups) ==> batch == groups
      ensures complete ==> batch == groups
      ensures keyed ==> forall k | k in old(objects) && k !in objects :: IsTargetKey(k) || k in KeysOf(batch)
      ensures options.apply || migratedRows == Size(groups) ==>
                IsMigrated(Now(), Start(), batch, migratedRows, sourcesKept)
      ensures |batch| <= |groups| && batch == groups[..|batch|] && (options.limit.None? ==> batch == groups)
      ensures keyed && reliable ==> IsCounted(Now(), Start(), batch, migratedRows, sourcesRemoved, sourcesKept)
      ensures keyed && reliable ==> NewAreReferenced(Start(), Now())
      ensures keyed && reliable && migratedRows == Size(groups) ==> failures == old(failures)
    {
      hide Run.NewAreReferenced;
      hide Run.Recorded, Run.Tracking, Run.RootedAt, Segregated, Run.AllSelectedFetched, Run.IsMigrated;
      hide Run.AreFreshFrom, Run.IsCounted;
      batch := SelectBatch(groups);
      migratedRows, sourcesRemoved, sourcesKept := 0, 0, 0;
      NothingMigrated();
      if keyed {
        FreshAtStart(batch);
        NothingCounted(batch);
        FewerAreReferenced(Start(), Start());
      }
      if options.apply {
        migratedRows, sourcesRemoved, sourcesKept := MigrateBatch(batch);
      }
      MigratedAtMostTheBatch(Now(), batch, migratedRows, sourcesKept);
      SizeOfPrefix(groups, |batch|);
      if |batch| < |groups| {
        assert groups[|batch|].items != [];
      }
    }

    /** Before anything has moved, every group is as it was when the run began. */
    lemma FreshAtStart(batch: seq<Group<string, Doc>>)
      requires Valid() && isolated && Unmoved() && AreGroups(batch) && Now() == Start()
      ensures AreFreshFrom(Now(), Start(), batch, 0)
    {
      hide Run.Recorded, Run.RootedAt, Segregated, TargetsOf;
      forall j, d | 0 <= j < |batch| && d in batch[j].items
        ensures d.id in rows && rows[d.id] == d.row
      {
        assert Known(d);
      }
    }

    lemma MigratedAtMostTheBatch(w: World, batch: seq<Group<string, Doc>>, migratedRows: nat, sourcesKept: nat)
      requires |history| > 0
      requires IsMigrated(w, Start(), batch, migratedRows, sourcesKept) || migratedRows == 0
      ensures migratedRows <= Size(batch)
    {
    }

    // ---------------------------------------------------------- the report

    /** The candidates that have not changed are the rows left, and no other row has changed. */
    lemma RowsLeft(docs: seq<Doc>, alreadyScoped: seq<Doc>, candidates: seq<Doc>, groups: seq<Group<string, Doc>>)
      requires Valid() && keyed && AllSelectedFetched() && IsPlan(docs, alreadyScoped, candidates, groups)
      ensures |LeftRows(Now(), options.onlyCompany)| == |candidates| - |Changed(Start().rows, rows)|
    {
      hide Run.Recorded, Run.Tracking, IsGroupedBy, Run.IsWholeSweep, Ascending, Segregated;
      AscendingIds(candidates);
      var left, changed := LeftRows(Now(), options.onlyCompany), Changed(Start().rows, rows);
      forall id | id in changed
        ensures id in Ids(candidates) && id !in left
      {
        MovedIsScoped(fetched[id]);
        assert Doc(id, fetched[id]) in candidates;
      }
      forall id | id in left
        ensures id in Ids(candidates)
      {
        assert id !in changed;
        assert Doc(id, fetched[id]) in candidates;
      }
      forall d | d in candidates && d.id !in changed
        ensures d.id in left
      {
        assert Known(d) && rows[d.id] == Start().rows[d.id] == d.row;
        SelectedIds(d.id);
      }
      assert left == Ids(candidates) - changed;
    }

    lemma SelectedIds(id: nat)
      requires Valid() && id in fetched
      ensures Matches(fetched[id], options.onlyCompany)
    {
      hide Run.Recorded, Run.RootedAt, Segregated, Content;
    }

    /** The keys that the run set out to handle are those that some selected row had to leave. */
    lemma HandledKeys(docs: seq<Doc>, alreadyScoped: seq<Doc>, candidates: seq<Doc>, groups: seq<Group<string, Doc>>,
                      batch: seq<Group<string, Doc>>)
      requires Valid() && isolated && AllSelectedFetched() && IsPlan(docs, alreadyScoped, candidates, groups)
      requires |batch| <= |groups| && batch == groups[..|batch|]
      ensures forall k | k in KeysOf(batch) :: IsLeft(Start(), k)
      ensures batch == groups ==> forall k | IsLeft(Start(), k) :: k in KeysOf(batch)
    {
      hide Run.Recorded, Run.IsPlan, Run.AllSelectedFetched;
      forall k | k in KeysOf(batch)
        ensures IsLeft(Start(), k)
      {
        var id := GroupKeyIsLeft(docs, alreadyScoped, candidates, groups, k);
      }
      forall k | batch == groups && IsLeft(Start(), k)
        ensures k in KeysOf(batch)
      {
        var id :| id in Start().rows && IsLeaving(Start(), id, k, options.onlyCompany);
        var g := LeavingRowHasAGroup(docs, alreadyScoped, candidates, groups, id, k);
      }
    }

    /** Some selected row has to leave the key. */
    ghost predicate IsLeft(w: World, key: string) {
      exists id | id in w.rows :: IsLeaving(w, id, key, options.onlyCompany)
    }

    /** A handled key counts once its whole group has moved and its object is still there. */
    lemma HandledKeyIsLeft(batch: seq<Group<string, Doc>>, g: Group<string, Doc>)
      requires Valid() && keyed && AllSelectedFetched() && AreGroups(batch) && g in batch
      ensures IsLeftKey(Now(), g.key, KeysOf(batch), options.onlyCompany) <==> AllMoved(Now(), g.items)
    {
      hide Run.Recorded, Run.Tracking, Run.RootedAt, Segregated, Run.AllSelectedFetched;
      var i :| 0 <= i < |batch| && batch[i] == g;
      var d := g.items[0];
      assert d in g.items && Known(d);
      CompleteGroupInTable(g.key, g.items);
      if AllMoved(Now(), g.items) {
        MovedIsScoped(d.row);
        SelectedIds(d.id);
        assert IsSweepRow(Now(), d.id, g.key, options.onlyCompany);
        forall id | id in rows
          ensures !IsLeaving(Now(), id, g.key, options.onlyCompany)
        {
          MovedRowHasLeft(g.key, g.items, id);
        }
      } else {
        var e :| e in g.items && !(IsCandidate(e.row) && e.id in rows && rows[e.id] == Moved(e.row));
        assert Known(e);
        SelectedIds(e.id);
        FetchedIsTracked(e.id);
        assert IsLeaving(Now(), e.id, g.key, options.onlyCompany);
      }
    }

    lemma FetchedIsTracked(id: nat)
      requires Valid() && isolated && id in fetched
      ensures id in rows && IsTracked(fetched[id], rows[id])
    {
      hide Run.Recorded, Run.RootedAt, Segregated, Content;
    }

    lemma MovedRowHasLeft(source: string, docs: seq<Doc>, id: nat)
      requires AllMoved(Now(), docs) && id in rows
      requires forall i | i in rows && IsLeaving(Now(), i, source, options.onlyCompany) :: i in Ids(docs)
      ensures !IsLeaving(Now(), id, source, options.onlyCompany)
    {
      if d :| d in docs && d.id == id {
        MovedIsScoped(d.row);
      }
    }

    /** A key that was not handled counts if a row that was scoped from the start maps to it. */
    lemma OtherKeyIsLeft(docs: seq<Doc>, alreadyScoped: seq<Doc>, candidates: seq<Doc>,
                         groups: seq<Group<string, Doc>>, batch: seq<Group<string, Doc>>, key: string)
      requires Valid() && keyed && AllSelectedFetched() && IsPlan(docs, alreadyScoped, candidates, groups)
      requires forall g | g in batch :: IsGroupAt(g.key, g.items)
      requires forall id | id in Changed(Start().rows, rows) :: exists g | g in batch :: id in Ids(g.items)
      requires key in objects && key !in KeysOf(batch)
      ensures IsLeftKey(Now(), key, KeysOf(batch), options.onlyCompany) <==>
              key in SweptLeft(Now(), alreadyScoped, KeysOf(batch))
    {
      hide Run.Recorded, Run.Tracking, Segregated;
      if IsLeftKey(Now(), key, KeysOf(batch), options.onlyCompany) {
        var id :| id in rows && IsSweepRow(Now(), id, key, options.onlyCompany);
        assert id in fetched;
        if id in Changed(Start().rows, rows) {
          var g :| g in batch && id in Ids(g.items);
          var d :| d in g.items && d.id == id;
          MovedIsScoped(fetched[id]);
          assert false;
        }
        assert Doc(id, fetched[id]) in alreadyScoped;
      }
      if key in SweptLeft(Now(), alreadyScoped, KeysOf(batch)) {
        var d :| d in alreadyScoped && IsScoped(d.row) && LegacyKey(d.row) == key;
        assert Known(d);
        SelectedIds(d.id);
        assert d.id in rows && rows[d.id] == d.row;
        assert IsSweepRow(Now(), d.id, key, options.onlyCompany);
      }
    }

    /** The keys that the migration kept and those that the sweep left are the legacy objects left. */
    lemma ObjectsLeft(docs: seq<Doc>, alreadyScoped: seq<Doc>, candidates: seq<Doc>, groups: seq<Group<string, Doc>>,
                      batch: seq<Group<string, Doc>>, between: World, migratedRows: nat, sourcesRemoved: nat,
                      sourcesKept: nat, sweep: SweepResult)
      requires Valid() && keyed && AllSelectedFetched() && IsPlan(docs, alreadyScoped, candidates, groups)
      requires AreGroups(batch) && IsCounted(between, Start(), batch, migratedRows, sourcesRemoved, sourcesKept)
      requires IsSwept(between, alreadyScoped, KeysOf(batch), sweep)
      ensures |LeftObjects(Now(), KeysOf(batch), options.onlyCompany)| ==
                sourcesKept + |SweptLeft(Now(), alreadyScoped, KeysOf(batch))|
    {
      hide Run.Recorded, Run.Tracking, Run.RootedAt, Segregated, Run.IsPlan, Run.AllMoved, IsLeftKey, Run.AreGroups;
      hide Run.AllSelectedFetched, IsVerified, Run.SweptAway, References, Gone, Run.GoneWereVerified, Changed;
      var handled := KeysOf(batch);
      var kept, left := KeptKeys(between, batch), SweptLeft(Now(), alreadyScoped, handled);
      SweepKeepsHandled(between, alreadyScoped, batch, sweep);
      BatchIsGrouped(batch);
      forall key | key in objects
        ensures IsLeftKey(Now(), key, handled, options.onlyCompany) <==> key in kept + left
      {
        if key in handled {
          var g :| g in batch && g.key == key;
          HandledKeyIsLeft(batch, g);
          assert key in kept <==> AllMoved(Now(), g.items);
        } else {
          OtherKeyIsLeft(docs, alreadyScoped, candidates, groups, batch, key);
        }
      }
      assert LeftObjects(Now(), handled, options.onlyCompany) == kept + left;
    }

    lemma BatchIsGrouped(batch: seq<Group<string, Doc>>)
      requires AreGroups(batch)
      ensures forall g | g in batch :: IsGroupAt(g.key, g.items)
      ensures forall g, h | g in batch && h in batch && g.key == h.key :: g == h
    {
    }

    lemma SweepKeepsHandled(between: World, alreadyScoped: seq<Doc>, batch: seq<Group<string, Doc>>,
                            sweep: SweepResult)
      requires isolated && IsSwept(between, alreadyScoped, KeysOf(batch), sweep)
      ensures between.rows == rows
      ensures forall g | g in batch :: g.key in between.objects <==> g.key in objects
      ensures forall g | g in batch :: AllMoved(between, g.items) <==> AllMoved(Now(), g.items)
    {
      hide IsVerified, Run.SweptAway, Run.SweptLeft, References;
      assert forall g | g in batch :: g.key in KeysOf(batch);
    }

    /** What the report of a run over a quiet table with reliable calls says, by the world that the run leaves. */
    ghost predicate IsReport(summary: Summary, handled: set<string>)
      reads this`rows, this`objects, this`nextId, this`history
      requires |history| > 0
    {
      && summary.rowsMigrated == |Changed(Start().rows, rows)|
      && summary.legacyObjectsRemoved == |Gone(Start().objects, objects)|
      && summary.legacyRowsRemaining == |LeftRows(Now(), options.onlyCompany)|
      && summary.legacyObjectsRemaining == |LeftObjects(Now(), handled, options.onlyCompany)|
      && (summary.gateOpen <==> MigrationIsFinished())
      && (forall k | k in handled :: IsLeft(Start(), k))
      && (options.limit.None? ==> forall k | IsLeft(Start(), k) :: k in handled)
    }

    /** The counters, and why a finished migration opens the gate. */
    lemma ReportIsExact(docs: seq<Doc>, alreadyScoped: seq<Doc>, candidates: seq<Doc>, groups: seq<Group<string, Doc>>,
                        batch: seq<Group<string, Doc>>, between: World, migratedRows: nat, sourcesRemoved: nat,
                        sourcesKept: nat, sweep: SweepResult, summary: Summary)
      requires Valid() && keyed && reliable && AllSelectedFetched() && IsPlan(docs, alreadyScoped, candidates, groups)
      requires AreGroups(groups) && |batch| <= |groups| && batch == groups[..|batch|]
      requires options.limit.None? ==> batch == groups
      requires IsCounted(between, Start(), batch, migratedRows, sourcesRemoved, sourcesKept)
      requires IsSwept(between, alreadyScoped, KeysOf(batch), sweep) && RootedAt(Start(), between)
      requires forall d | d in alreadyScoped :: Known(d) && IsScoped(d.row)
      requires summary.legacyObjectsRemoved == sourcesRemoved + sweep.objectsRemoved
      requires migratedRows == |candidates| && SweptLeft(Now(), alreadyScoped, KeysOf(batch)) == {} ==> failures == []
      requires summary.rowsMigrated == migratedRows && summary.legacyRowsRemaining == |candidates| - migratedRows
      requires summary.legacyObjectsRemaining == sweep.keysWithLeftovers - sweep.objectsRemoved + sourcesKept
      requires summary.gateOpen <==>
                 summary.legacyRowsRemaining == 0 && summary.legacyObjectsRemaining == 0 && |failures| == 0
      requires summary.gateOpen ==> MigrationIsFinished()
      ensures IsReport(summary, KeysOf(batch))
    {
      hide Run.Recorded, Run.Tracking, Run.RootedAt, Segregated, Run.IsPlan, Run.AllSelectedFetched, LeftRows;
      hide LeftObjects, Run.IsLeft, IsFinished, Changed, Run.SweptLeft, Run.KeptKeys, Gone;
      PrefixOfGroups(groups, batch);
      RowsLeft(docs, alreadyScoped, candidates, groups);
      ObjectsLeft(docs, alreadyScoped, candidates, groups, batch, between, migratedRows, sourcesRemoved, sourcesKept,
                  sweep);
      ObjectsGone(between, alreadyScoped, batch, sweep);
      HandledKeys(docs, alreadyScoped, candidates, groups, batch);
      SweptCount(between, alreadyScoped, batch, sweep);
      if MigrationIsFinished() {
        FinishedLeavesNothing(Now(), KeysOf(batch), options.onlyCompany);
      }
    }

    lemma SweptKeyIsOriginal(between: World, alreadyScoped: seq<Doc>, batch: seq<Group<string, Doc>>,
                             sweep: SweepResult, key: string)
      requires Valid() && keyed && IsSwept(between, alreadyScoped, KeysOf(batch), sweep) && RootedAt(Start(), between)
      requires forall d | d in alreadyScoped :: Known(d) && IsScoped(d.row)
      requires key in between.objects && key !in objects
      ensures key in Start().objects
    {
      hide Run.Recorded, Run.Tracking, Segregated, Run.SweptLeft, Run.SweptAway, IsVerified, References;
      var d :| d in alreadyScoped && IsScoped(d.row) && LegacyKey(d.row) == key;
      ScopedRowIsAsFetched(d);
      assert d.id in rows && IsPlaced(rows[d.id]) && LegacyKey(rows[d.id]) == key;
      if key !in Start().objects {
        assert IsDueAtStart(Start(), key, between.objects[key]);
        assert IsTargetKey(key);
        TargetIsNoLegacyKey(key);
      }
    }

    /** The sweep removes objects that were there from the start. */
    lemma ObjectsGone(between: World, alreadyScoped: seq<Doc>, batch: seq<Group<string, Doc>>, sweep: SweepResult)
      requires Valid() && keyed && reliable && IsSwept(between, alreadyScoped, KeysOf(batch), sweep)
      requires RootedAt(Start(), between) && forall d | d in alreadyScoped :: Known(d) && IsScoped(d.row)
      ensures |Gone(Start().objects, objects)| == |Gone(Start().objects, between.objects)| + sweep.objectsRemoved
    {
      hide Run.Recorded, Run.Tracking, Run.RootedAt, Segregated, Run.SweptLeft, Run.SweptAway, IsVerified, References;
      hide Gone, Run.GoneWereVerified;
      forall k | k in between.objects && k !in objects
        ensures k in Start().objects
      {
        SweptKeyIsOriginal(between, alreadyScoped, batch, sweep, k);
      }
      GoneAddsUp(Start().objects, between.objects, objects);
    }

    lemma SweptCount(between: World, alreadyScoped: seq<Doc>, batch: seq<Group<string, Doc>>, sweep: SweepResult)
      requires isolated && reliable && IsSwept(between, alreadyScoped, KeysOf(batch), sweep)
      ensures sweep.keysWithLeftovers - sweep.objectsRemoved == |SweptLeft(Now(), alreadyScoped, KeysOf(batch))|
      ensures between.rows == rows
    {
      hide Run.SweptLeft, Run.SweptAway, IsVerified, References;
    }

    lemma PrefixOfGroups(groups: seq<Group<string, Doc>>, batch: seq<Group<string, Doc>>)
      requires AreGroups(groups) && |batch| <= |groups| && batch == groups[..|batch|]
      ensures AreGroups(batch)
    {
      hide Run.IsGroupAt, Run.IsCompleteGroup, Ascending;
    }

    /** A whole run of the backfill; handled are the keys that it set out to migrate. */
    method Execute() returns (c: Call<Summary>, ghost handled: set<string>)
      requires Valid() && fetched == map[] && Now() == Start()
      modifies this
      ensures Valid() && Start() == old(Start())
      ensures isolated && !options.apply ==> Now() == old(Now())
      ensures c.Done? && keyed && c.value.gateOpen ==> MigrationIsFinished()
      ensures reliable ==> c.Done?
      ensures reliable && keyed ==> IsReport(c.value, handled) && NewAreReferenced(Start(), Now())
      ensures complete && options.deleteSource ==> c.Done? && LosesExactlyTheLost()
      ensures settled ==> c.Done? && AtRest(Now(), options.deleteSource)
    {
      hide Run.Recorded, Run.Tracking, Run.RootedAt, Segregated, AreRehomed, AreFinal, Run.IsCompleteGroup;
      hide Run.AllSelectedFetched, Run.IsVacated, Run.AreGroups, NoLoss, IsVerified, References, IsAbandoned;
      hide Run.IsSwept;
      hide Bounded, Run.IsMigrated, Run.IsPlan, Run.IsCleared, Run.LosesExactlyTheLost, Run.MigrationIsFinished;
      hide Run.IsCounted, Run.SweptLeft, Run.IsReport, Run.NewAreReferenced;
      var plan, docs := Plan();
      if plan.Threw? {
        return Threw, {};
      }
      var (alreadyScoped, candidates, groups) := plan.value;
      failures := [];
      PlannedRows(docs, alreadyScoped, candidates, groups);
      var batch, migratedRows, sourcesRemoved, sourcesKept := Migrate(groups);
      ghost var between, earlier := Now(), history;
      var skipKeys := KeysOf(batch);
      var sweep := SweepLegacyObjects(alreadyScoped, skipKeys);
      HistoryKeeps(earlier);

      var legacyRowsRemaining := |candidates| - migratedRows;
      var legacyObjectsRemaining := sweep.keysWithLeftovers - sweep.objectsRemoved + sourcesKept;
      var gateOpen := legacyRowsRemaining == 0 && legacyObjectsRemaining == 0 && |failures| == 0;
      if keyed && gateOpen {
        GateIsSound(docs, alreadyScoped, candidates, groups, between, migratedRows, sourcesKept, sweep);
      }
      if complete && options.deleteSource {
        ClearedByTheRun(between, alreadyScoped, groups, migratedRows, sourcesKept, sweep);
        LossIsExact(docs, alreadyScoped, candidates, groups, between, sweep);
      }
      if settled {
        RestIsReached(docs, alreadyScoped, candidates, groups, between, migratedRows, sourcesKept, sweep);
      }
      handled := skipKeys;
      c := Done(Summary(migratedRows, sourcesRemoved + sweep.objectsRemoved, legacyRowsRemaining,
                        legacyObjectsRemaining, gateOpen));
      if keyed && reliable {
        FewerAreReferenced(Start(), between);
        ReportIsExact(docs, alreadyScoped, candidates, groups, batch, between, migratedRows, sourcesRemoved,
                      sourcesKept, sweep, c.value);
      }
    }
  }

  // -------------------------------------------------- what one row adds to its group, on values

  /** The row serves its document from its scoped key. */
  ghost predicate IsRehomed(w: World, d: Doc) {
    IsCandidate(d.row) && d.id in w.rows && w.rows[d.id] == Moved(d.row) && Content(w, d.id).Some?
  }

  lemma RehomedStay(a: World, b: World, docs: seq<Doc>)
    requires AreRehomed(a, docs) && Bounded(a) && NoLoss(a, b)
    requires forall d | d in docs && d.id in a.rows && d.id in b.rows :: b.rows[d.id] == a.rows[d.id]
    requires forall d | d in docs :: d.id < a.nextId
    ensures AreRehomed(b, docs)
  {
    forall d | d in docs && d.id in b.rows
      ensures IsRehomed(b, d)
    {
      assert d.id in a.rows && IsRehomed(a, d) && KeepsRow(a, b, d.id);
    }
  }

  /** A row served intact from its own key. */
  ghost predicate IsVerified(w: World, d: Doc) {
    d.id in w.rows ==> Content(w, d.id).Some?
  }

  lemma VerifiedRemain(a: World, b: World, docs: seq<Doc>)
    requires Bounded(a) && NoLoss(a, b)
    requires forall d | d in docs :: IsVerified(a, d) && d.id < a.nextId
    ensures forall d | d in docs :: IsVerified(b, d)
  {
    forall d | d in docs
      ensures IsVerified(b, d)
    {
      assert IsVerified(a, d);
      assert d.id in b.rows && d.id in a.rows ==> KeepsRow(a, b, d.id);
    }
  }

  ghost predicate AreRehomed(w: World, docs: seq<Doc>) {
    forall d | d in docs && d.id in w.rows :: IsRehomed(w, d)
  }

  /** The counters after a row: it counts as migrated only when it is rehomed, on its row and on its target. */
  ghost predicate IsNext(w: World, source: string, doc: Doc, migrated: nat, targets: map<CompanyId, TargetState>,
                         migrated': nat, targets': map<CompanyId, TargetState>) {
    || (migrated' == migrated && targets' == targets)
    || (&& migrated' == migrated + 1
        && (doc.id in w.rows ==> IsRehomed(w, doc))
        && doc.row.company.Some? && doc.row.company.value in targets
        && var t := targets[doc.row.company.value];
           targets' == targets[doc.row.company.value := t.(repointed := t.repointed + 1)])
  }

  ghost predicate IsSettledNext(w: World, start: World, source: string, doc: Doc, migrated: nat,
                                targets: map<CompanyId, TargetState>, migrated': nat) {
    && doc.id in w.rows && doc.id in start.rows && w.rows[doc.id] == FinalRow(start, doc.id)
    && doc.row.company.Some? && doc.row.company.value in targets
    && (migrated' == migrated ==>
          w.rows[doc.id].path == Some(source) && !targets[doc.row.company.value].uploadedThisRun)
  }

  /** Every row of the group is where a settled run leaves it. */
  ghost predicate AreFinal(w: World, start: World, docs: seq<Doc>) {
    forall d | d in docs :: d.id in w.rows && d.id in start.rows && w.rows[d.id] == FinalRow(start, d.id)
  }

  lemma FinalStay(a: World, b: World, start: World, docs: seq<Doc>)
    requires a.rows == b.rows
    ensures AreFinal(a, start, docs) <==> AreFinal(b, start, docs)
  {
  }

  /** Where a settled run has taken the rows of a group once their copies were checked. */
  ghost predicate IsSettledGroup(w: World, start: World, source: string, docs: seq<Doc>, migrated: nat,
                                 targets: map<CompanyId, TargetState>) {
    && AreFinal(w, start, docs)
    && (migrated < |docs| ==> exists d | d in docs :: d.id in w.rows && w.rows[d.id].path == Some(source))
    && (forall d | d in docs && d.row.company.Some? && d.row.company.value in targets ::
          targets[d.row.company.value].uploadedThisRun ==> targets[d.row.company.value].repointed > 0)
  }

  lemma EveryCopyIsUsed(w: World, start: World, source: string, docs: seq<Doc>, migrated: nat,
                        targets: map<CompanyId, TargetState>)
    requires AreCopies(w, source, docs, targets) && IsSettledGroup(w, start, source, docs, migrated, targets)
    ensures forall company | company in targets :: targets[company].uploadedThisRun ==> targets[company].repointed > 0
    ensures migrated < |docs| ==> References(w, source)
    ensures AreFinal(w, start, docs)
  {
    forall company | company in targets
      ensures targets[company].uploadedThisRun ==> targets[company].repointed > 0
    {
      var d :| d in docs && d.row.company == Some(company);
    }
  }

  lemma EmptyGroup(w: World, start: World, source: string, targets: map<CompanyId, TargetState>)
    ensures AreRehomed(w, []) && IsSettledGroup(w, start, source, [], 0, targets)
  {
  }

  lemma GroupGrows(a: World, b: World, source: string, docs: seq<Doc>, doc: Doc, migrated: nat,
                   targets: map<CompanyId, TargetState>, migrated': nat, targets': map<CompanyId, TargetState>)
    requires Bounded(a) && Evolves(a, b, {doc.id}, {})
    requires IsNext(b, source, doc, migrated, targets, migrated', targets') && migrated <= |docs|
    requires forall d | d in docs + [doc] :: d.id < a.nextId && (d.id == doc.id ==> d == doc)
    requires migrated == |docs| ==> AreRehomed(a, docs)
    ensures migrated' <= |docs| + 1
    ensures migrated' == |docs| + 1 ==> AreRehomed(b, docs + [doc])
  {
  }

  lemma SettledGroupGrows(a: World, b: World, start: World, source: string, docs: seq<Doc>, doc: Doc, migrated: nat,
                          targets: map<CompanyId, TargetState>, migrated': nat, targets': map<CompanyId, TargetState>)
    requires Bounded(a) && Evolves(a, b, {doc.id}, {}) && a.rows.Keys == b.rows.Keys
    requires IsSettledGroup(a, start, source, docs, migrated, targets)
    requires IsNext(b, source, doc, migrated, targets, migrated', targets')
    requires IsSettledNext(b, start, source, doc, migrated, targets, migrated')
    ensures IsSettledGroup(b, start, source, docs + [doc], migrated', targets')
  {
    forall d | d in docs + [doc]
      ensures d.id in b.rows && d.id in start.rows && b.rows[d.id] == FinalRow(start, d.id)
    {
      assert d.id != doc.id ==> b.rows[d.id] == a.rows[d.id];
    }
    assert doc in docs + [doc];
    if migrated < |docs| {
      var d :| d in docs && d.id in a.rows && a.rows[d.id].path == Some(source);
      assert d in docs + [doc] && b.rows[d.id] == a.rows[d.id];
    }
  }
}
