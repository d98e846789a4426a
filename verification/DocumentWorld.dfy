/**
 The two stores the backfill works on, as one value: the document_attachments
 table and the objects of the bucket. What one step of the migration keeps,
 and where a world is heading, are stated here on values.
 */
module DocumentWorld {
  import opened Wrappers
  import opened DocumentPaths

  newtype byte = x: int | 0 <= x < 256
  type Bytes = seq<byte>

  /** SHA-256 as an injective function of the bytes; Blank is an empty text in the column. */
  datatype Digest = Sha256(of: Bytes) | Blank

  datatype Row = Row(company: Option<CompanyId>, path: Option<string>, hash: Option<Digest>)

  /** Row ids are numbered in the (created_at, id) order of the table; nextId is above every id ever used. */
  datatype World = World(rows: map<nat, Row>, objects: map<string, Bytes>, nextId: nat)

  /** The row carries a stored hash. */
  predicate HasHash(row: Row) {
    row.hash.Some? && row.hash.value.Sha256?
  }

  predicate IsScoped(row: Row) {
    row.company.Some? && row.path.Some? && IsCompanyScoped(row.path.value, row.company.value)
  }

  /** A row the backfill has to move. */
  predicate IsCandidate(row: Row) {
    row.company.Some? && row.path.Some? && !IsScoped(row) && IsLegacyDocumentPath(row.path.value)
  }

  function Target(row: Row): string
    requires IsCandidate(row)
  {
    CompanyScopedPath(row.path.value, row.company.value).value
  }

  function Moved(row: Row): Row
    requires IsCandidate(row)
  {
    row.(path := Some(Target(row)))
  }

  predicate IsPlaced(row: Row) {
    IsScoped(row) || IsCandidate(row)
  }

  /** The legacy key a row is, or was, served from. */
  function LegacyKey(row: Row): string
    requires IsPlaced(row)
  {
    if IsScoped(row) then LegacyPathFor(row.path.value, row.company.value).value else row.path.value
  }

  lemma MovedIsScoped(row: Row)
    requires IsCandidate(row)
    ensures IsScoped(Moved(row)) && LegacyKey(Moved(row)) == LegacyKey(row)
    ensures Target(row) != row.path.value
  {
    ScopeThenDerive(row.path.value, row.company.value);
  }

  lemma TargetsAreDistinct(r: Row, s: Row)
    requires IsCandidate(r) && IsCandidate(s) && Target(r) == Target(s)
    ensures r.path == s.path && r.company == s.company
  {
    ScopedPathsAreInjective(r.path.value, r.company.value, s.path.value, s.company.value);
  }

  /** The rows that a run with the filter selects. */
  predicate Matches(row: Row, onlyCompany: Option<CompanyId>) {
    row.path.Some? && (onlyCompany.Some? ==> row.company == onlyCompany)
  }

  predicate References(w: World, key: string) {
    exists id | id in w.rows :: w.rows[id].path == Some(key)
  }

  // ------------------------------------------------------------ no document is lost

  /** The bytes a row serves, when its key names an object that matches any stored hash. */
  function Content(w: World, id: nat): Option<Bytes> {
    if id in w.rows && w.rows[id].path.Some? && w.rows[id].path.value in w.objects then
      var bytes := w.objects[w.rows[id].path.value];
      if HasHash(w.rows[id]) && w.rows[id].hash.value != Sha256(bytes)
      then None else Some(bytes)
    else None
  }

  ghost predicate Bounded(w: World) {
    forall id | id in w.rows :: id < w.nextId
  }

  /** A row that still exists keeps its owner and its hash, and serves the very bytes it served before. */
  ghost predicate KeepsRow(w: World, w': World, id: nat)
    requires id in w.rows && id in w'.rows
  {
    && w'.rows[id].company == w.rows[id].company
    && w'.rows[id].hash == w.rows[id].hash
    && (Content(w, id).Some? ==> Content(w', id) == Content(w, id))
  }

  ghost predicate NoLoss(w: World, w': World) {
    && w.nextId <= w'.nextId
    && (forall id | id in w'.rows && id !in w.rows :: w.nextId <= id)
    && (forall id | id in w'.rows && id in w.rows :: KeepsRow(w, w', id))
  }

  lemma NoLossIsTransitive(a: World, b: World, c: World)
    requires Bounded(a) && NoLoss(a, b) && NoLoss(b, c)
    ensures NoLoss(a, c)
  {
    forall id | id in c.rows && id in a.rows
      ensures KeepsRow(a, c, id)
    {
      assert id in b.rows;
      assert KeepsRow(a, b, id) && KeepsRow(b, c, id);
    }
  }

  /** Every step of a history keeps every document. */
  ghost predicate KeepsDocuments(history: seq<World>) {
    && (forall i | 0 <= i < |history| :: Bounded(history[i]))
    && (forall i | 0 < i < |history| :: NoLoss(history[i - 1], history[i]))
  }

  /** So a document intact at any point of the history is intact at every later one. */
  lemma {:induction false} NothingIsLostLater(history: seq<World>, i: nat, j: nat)
    requires KeepsDocuments(history) && i <= j < |history|
    ensures NoLoss(history[i], history[j])
    decreases j - i
  {
    if i < j {
      NothingIsLostLater(history, i, j - 1);
      NoLossIsTransitive(history[i], history[j - 1], history[j]);
    }
  }

  // ------------------------------------------------------------ what others may do meanwhile

  /** A document uploaded meanwhile is born company-scoped, at a key that held nothing. */
  predicate IsFreshRow(w: World, w': World, id: nat, row: Row) {
    && w.nextId <= id < w'.nextId
    && row.path.Some? && row.path.value !in w.objects
  }

  /** Rows may vanish and fresh ones appear; existing rows are not edited and objects not overwritten. */
  predicate Rely(w: World, w': World) {
    && w.nextId <= w'.nextId
    && (forall id | id in w'.rows ::
      if id in w.rows then w'.rows[id] == w.rows[id] else IsFreshRow(w, w', id, w'.rows[id]))
    && (forall k | k in w.objects :: k in w'.objects && w'.objects[k] == w.objects[k])
  }

  lemma RelyKeepsDocuments(w: World, w': World)
    requires Bounded(w) && Rely(w, w')
    ensures Bounded(w') && NoLoss(w, w')
  {
  }

  lemma RelyIsReflexive(w: World)
    ensures Rely(w, w)
  {
  }

  lemma RelyKeepsObject(w: World, w': World, key: string)
    requires Rely(w, w') && key in w.objects
    ensures key in w'.objects && w'.objects[key] == w.objects[key]
  {
  }

  lemma RelyIsTransitive(a: World, b: World, c: World)
    requires Rely(a, b) && Rely(b, c) && Bounded(a)
    ensures Rely(a, c)
  {
  }

  lemma RepointKeepsDocuments(w: World, w': World, id: nat)
    requires Bounded(w) && id in w.rows && IsCandidate(w.rows[id])
    requires w' == w.(rows := w.rows[id := Moved(w.rows[id])])
    requires Target(w.rows[id]) in w.objects
    requires Content(w, id).Some? ==> w.objects[Target(w.rows[id])] == Content(w, id).value
    ensures Bounded(w') && NoLoss(w, w')
  {
    forall i | i in w'.rows && i in w.rows
      ensures KeepsRow(w, w', i)
    {
      assert i != id ==> w'.rows[i] == w.rows[i];
    }
  }

  lemma RemovalKeepsDocuments(w: World, w': World, key: string)
    requires Bounded(w) && !References(w, key)
    requires w' == w.(objects := w.objects - {key})
    ensures Bounded(w') && NoLoss(w, w')
  {
    forall id | id in w.rows
      ensures KeepsRow(w, w', id)
    {
      assert w.rows[id].path != Some(key);
    }
  }

  /** A stretch of the run in which only the given rows were repointed and only the given objects removed. */
  ghost predicate Evolves(w: World, w': World, ids: set<nat>, keys: set<string>) {
    && w.nextId <= w'.nextId
    && (forall id | id in w'.rows :: if id in w.rows then id in ids || w'.rows[id] == w.rows[id] else w.nextId <= id)
    && (forall k | k in w.objects && k !in keys :: k in w'.objects && w'.objects[k] == w.objects[k])
  }

  lemma EvolvesIsTransitive(a: World, b: World, c: World, ids: set<nat>, keys: set<string>)
    requires Bounded(a) && Evolves(a, b, ids, keys) && Evolves(b, c, ids, keys)
    ensures Evolves(a, c, ids, keys)
  {
  }

  // ------------------------------------------------------------ the last good copy

  predicate Serves(w: World, row: Row, key: string) {
    && key in w.objects
    && (HasHash(row) ==> row.hash.value == Sha256(w.objects[key]))
  }

  /** Good bytes of the document exist at the row's own key or at its legacy key. */
  predicate Recoverable(w: World, id: nat) {
    && id in w.rows
    && var row := w.rows[id];
       || (row.path.Some? && Serves(w, row, row.path.value))
       || (IsPlaced(row) && Serves(w, row, LegacyKey(row)))
  }

  ghost predicate KeepsCopies(w: World, w': World) {
    forall id | id in w'.rows && Recoverable(w, id) :: Recoverable(w', id)
  }

  /** No row that the legacy key could serve depends on it: each is served intact from its own key. */
  ghost predicate Spared(w: World, key: string) {
    forall id | id in w.rows && IsPlaced(w.rows[id]) && LegacyKey(w.rows[id]) == key && Serves(w, w.rows[id], key) ::
      Content(w, id).Some?
  }

  /** Removing an unreferenced object leaves every row some good bytes, exactly when no row depends on it. */
  lemma RemovalKeepsCopiesExactlyWhen(w: World, w': World, key: string)
    requires !References(w, key)
    requires w' == w.(objects := w.objects - {key})
    ensures KeepsCopies(w, w') <==> Spared(w, key)
  {
    if Spared(w, key) {
      forall id | id in w'.rows && Recoverable(w, id)
        ensures Recoverable(w', id)
      {
        assert w.rows[id].path != Some(key);
        if IsPlaced(w.rows[id]) && LegacyKey(w.rows[id]) == key && Serves(w, w.rows[id], key) {
          assert Content(w, id).Some?;
        }
      }
    } else {
      var id :| id in w.rows && IsPlaced(w.rows[id]) && LegacyKey(w.rows[id]) == key && Serves(w, w.rows[id], key)
                && Content(w, id).None?;
      assert Recoverable(w, id) && !Recoverable(w', id);
    }
  }

  lemma RepointKeepsCopies(w: World, w': World, id: nat)
    requires id in w.rows && IsCandidate(w.rows[id])
    requires w' == w.(rows := w.rows[id := Moved(w.rows[id])])
    ensures KeepsCopies(w, w')
  {
    MovedIsScoped(w.rows[id]);
    forall i | i in w'.rows && Recoverable(w, i)
      ensures Recoverable(w', i)
    {
      assert i != id ==> w'.rows[i] == w.rows[i];
    }
  }

  /** The row is scoped, its own copy is missing or wrong, and the legacy object still has its bytes. */
  predicate IsBroken(w: World, id: nat) {
    && id in w.rows && IsScoped(w.rows[id])
    && Content(w, id).None? && Serves(w, w.rows[id], LegacyKey(w.rows[id]))
  }

  /**
   No such row shares its legacy key with a selected row that still has to leave the key, nor, when it is not selected
   itself and so goes unchecked, with a selected scoped row.
   */
  ghost predicate NoBrokenStragglers(w: World, onlyCompany: Option<CompanyId>) {
    forall id, other | IsBroken(w, id) && other in w.rows && Matches(w.rows[other], onlyCompany) ::
      && (IsCandidate(w.rows[other]) ==> LegacyKey(w.rows[id]) != w.rows[other].path.value)
      && (IsScoped(w.rows[other]) && !Matches(w.rows[id], onlyCompany) ==>
            LegacyKey(w.rows[id]) != LegacyKey(w.rows[other]))
  }

  /** The copy made of the row's object, or found at its target, has the hash that the row expects. */
  predicate Passes(w: World, id: nat) {
    && id in w.rows && IsCandidate(w.rows[id]) && w.rows[id].path.value in w.objects
    && var bytes := w.objects[w.rows[id].path.value];
       var copy := if Target(w.rows[id]) in w.objects then w.objects[Target(w.rows[id])] else bytes;
       Sha256(copy) == w.rows[id].hash.GetOr(Sha256(bytes))
  }

  predicate IsLeaving(w: World, id: nat, key: string, onlyCompany: Option<CompanyId>) {
    id in w.rows && w.rows[id].path == Some(key) && IsCandidate(w.rows[id]) && Matches(w.rows[id], onlyCompany)
  }

  /** Every row at the key has to leave it and will, so that a deleting run removes the object with the group. */
  predicate Vacates(w: World, key: string, onlyCompany: Option<CompanyId>) {
    && key in w.objects
    && (exists id | id in w.rows :: IsLeaving(w, id, key, onlyCompany))
    && (forall id | id in w.rows && w.rows[id].path == Some(key) ::
          IsLeaving(w, id, key, onlyCompany) && Passes(w, id))
  }

  /** A selected row that was scoped before and maps to the key. */
  predicate IsSweepRow(w: World, id: nat, key: string, onlyCompany: Option<CompanyId>) {
    && id in w.rows && IsScoped(w.rows[id]) && Matches(w.rows[id], onlyCompany)
    && LegacyKey(w.rows[id]) == key
  }

  /** The row's own copy is readable and has the stored hash, or without one the bytes of the legacy object. */
  predicate SweepPasses(w: World, row: Row, key: string) {
    && row.path.Some? && row.path.value in w.objects && key in w.objects
    && Sha256(w.objects[row.path.value]) == if HasHash(row) then row.hash.value else Sha256(w.objects[key])
  }

  /** No row is at the key and every selected row that maps to it passes, so that the sweep removes the object. */
  predicate Sweeps(w: World, key: string, onlyCompany: Option<CompanyId>) {
    && key in w.objects && !References(w, key)
    && (exists id | id in w.rows :: IsSweepRow(w, id, key, onlyCompany))
    && (forall id | id in w.rows && IsSweepRow(w, id, key, onlyCompany) :: SweepPasses(w, w.rows[id], key))
  }

  /** A selected row of the same company leaves the key too, and its fresh copy lands at the row's own free key. */
  predicate IsRepaired(w: World, id: nat, onlyCompany: Option<CompanyId>)
    requires id in w.rows && IsScoped(w.rows[id])
  {
    && w.rows[id].path.value !in w.objects
    && exists other | other in w.rows ::
         IsLeaving(w, other, LegacyKey(w.rows[id]), onlyCompany) && w.rows[other].company == w.rows[id].company
  }

  /** A complete deleting run with the filter takes the last good bytes of the row. */
  predicate IsLost(w: World, id: nat, onlyCompany: Option<CompanyId>) {
    && IsBroken(w, id)
    && (Vacates(w, LegacyKey(w.rows[id]), onlyCompany) || Sweeps(w, LegacyKey(w.rows[id]), onlyCompany))
    && !IsRepaired(w, id, onlyCompany)
  }

  // ------------------------------------------------------------ what a run reports

  /** The selected rows that still have to be moved. */
  function LeftRows(w: World, onlyCompany: Option<CompanyId>): set<nat> {
    set id | id in w.rows && IsCandidate(w.rows[id]) && Matches(w.rows[id], onlyCompany)
  }

  /**
   The legacy keys of selected scoped rows that still name an object. A key whose rows the run set out to move counts
   only once they have all left it: until then its rows are counted.
   */
  function LeftObjects(w: World, handled: set<string>, onlyCompany: Option<CompanyId>): set<string> {
    set key | key in w.objects && IsLeftKey(w, key, handled, onlyCompany)
  }

  predicate IsLeftKey(w: World, key: string, handled: set<string>, onlyCompany: Option<CompanyId>) {
    && (exists id | id in w.rows :: IsSweepRow(w, id, key, onlyCompany))
    && (key in handled ==> forall id | id in w.rows :: !IsLeaving(w, id, key, onlyCompany))
  }

  /** The rows that are not as they were. */
  function Changed(before: map<nat, Row>, after: map<nat, Row>): set<nat> {
    set id | id in before && id in after && after[id] != before[id]
  }

  /** The keys whose objects are gone. */
  function Gone(before: map<string, Bytes>, after: map<string, Bytes>): set<string> {
    before.Keys - after.Keys
  }

  lemma GoneAddsUp(a: map<string, Bytes>, b: map<string, Bytes>, c: map<string, Bytes>)
    requires forall k | k in c :: k in b
    requires forall k | k in b && k !in c :: k in a
    ensures |Gone(a, c)| == |Gone(a, b)| + |Gone(b, c)|
  {
    assert Gone(a, c) == Gone(a, b) + Gone(b, c);
    assert Gone(a, b) !! Gone(b, c);
  }

  /** Of the first objects only the one at the key may have gone, and it has gone exactly if so said. */
  lemma OneGone(a: map<string, Bytes>, b: map<string, Bytes>, c: map<string, Bytes>, key: string, gone: bool)
    requires forall k | k in a && k != key :: k in b <==> k in c
    requires gone ==> key in a && key in b && key !in c
    requires !gone && key in a ==> (key in b <==> key in c)
    ensures |Gone(a, c)| == |Gone(a, b)| + if gone then 1 else 0
  {
    assert Gone(a, c) == Gone(a, b) + if gone then {key} else {};
  }

  /** Every selected document is at its own company's key, and no legacy object is left behind for it. */
  predicate IsFinished(w: World, onlyCompany: Option<CompanyId>) {
    forall id | id in w.rows && IsPlaced(w.rows[id]) && Matches(w.rows[id], onlyCompany) ::
      IsScoped(w.rows[id]) && LegacyKey(w.rows[id]) !in w.objects
  }

  /** Changes of rows that were untouched before add to those that there were. */
  lemma ChangesAddUp(a: map<nat, Row>, b: map<nat, Row>, c: map<nat, Row>)
    requires a.Keys == b.Keys == c.Keys
    requires forall id | id in b && c[id] != b[id] :: b[id] == a[id]
    ensures |Changed(a, c)| == |Changed(a, b)| + |Changed(b, c)|
  {
    assert Changed(a, c) == Changed(a, b) + Changed(b, c);
    assert Changed(a, b) !! Changed(b, c);
  }

  lemma OneMoreChanged(before: map<nat, Row>, mid: map<nat, Row>, id: nat, row: Row)
    requires id in before && id in mid && mid[id] == before[id] && row != before[id]
    ensures |Changed(before, mid[id := row])| == |Changed(before, mid)| + 1
  {
    assert Changed(before, mid[id := row]) == Changed(before, mid) + {id};
  }

  /** Once the migration is finished nothing is left to count. */
  lemma FinishedLeavesNothing(w: World, handled: set<string>, onlyCompany: Option<CompanyId>)
    requires IsFinished(w, onlyCompany)
    ensures LeftRows(w, onlyCompany) == {} && LeftObjects(w, handled, onlyCompany) == {}
  {
    forall key | key in w.objects
      ensures !IsLeftKey(w, key, handled, onlyCompany)
    {
      if IsLeftKey(w, key, handled, onlyCompany) {
        assert false;
      }
    }
  }

  // ------------------------------------------------------------ stragglers

  lemma LostMeansStraggler(w: World, id: nat, onlyCompany: Option<CompanyId>)
    requires IsLost(w, id, onlyCompany)
    ensures !NoBrokenStragglers(w, onlyCompany)
  {
    var key := LegacyKey(w.rows[id]);
    if Vacates(w, key, onlyCompany) {
      var other :| other in w.rows && IsLeaving(w, other, key, onlyCompany);
    } else {
      var other :| other in w.rows && IsSweepRow(w, other, key, onlyCompany);
      assert Matches(w.rows[id], onlyCompany) ==> IsSweepRow(w, id, key, onlyCompany);
    }
  }

  /** An unfiltered run checks every scoped row, so only a row still to leave the key can make a run lose another. */
  lemma UnfilteredStragglers(w: World)
    ensures NoBrokenStragglers(w, None) <==>
              forall id, other | IsBroken(w, id) && other in w.rows && IsCandidate(w.rows[other]) ::
                LegacyKey(w.rows[id]) != w.rows[other].path.value
  {
  }

  /** Row 1 is scoped but its object is missing; row 2, of another company, still shares the legacy object. */
  function WorldWithAStraggler(): World {
    World(map[1 := Row(Some("a"), Some("documents/a/u/x"), None), 2 := Row(Some("b"), Some("documents/u/x"), None)],
          map["documents/u/x" := []], 3)
  }

  lemma StragglerKeys()
    ensures var w := WorldWithAStraggler();
            && IsScoped(w.rows[1]) && LegacyKey(w.rows[1]) == "documents/u/x"
            && IsCandidate(w.rows[2]) && LegacyKey(w.rows[2]) == "documents/u/x"
            && Target(w.rows[2]) == "documents/b/u/x"
            && !IsCompanyScoped("documents/u/x", "a") && !IsCompanyScoped("documents/u/x", "b")
  {
    assert Scope("a") == "documents/a/" && Scope("b") == "documents/b/";
    assert "documents/a/u/x" == Scope("a") + "u/x" && "documents/u/x" == ROOT + "u/x";
    assert "documents/a/u/x"[|Scope("a")|..] == "u/x" && "documents/u/x"[|ROOT|..] == "u/x";
    assert "documents/u/x"[10] == 'u' && Scope("b")[10] == 'b' && Scope("a")[10] == 'a';
    assert Scope("b") + "u/x" == "documents/b/u/x";
  }

  /** A deleting run is about to lose the document of row 1. */
  lemma StragglerIsLost()
    ensures var w := WorldWithAStraggler();
            Bounded(w) && Segregated(w) && Recoverable(w, 1) && IsLost(w, 1, None)
  {
    hide IsScoped, IsCandidate, LegacyKey, Target, IsCompanyScoped;
    StragglerKeys();
    var w := WorldWithAStraggler();
    assert |"documents/u/x"| != |"documents/b/u/x"| == |"documents/a/u/x"|;
    assert "documents/a/u/x"[10] != "documents/b/u/x"[10];
    assert IsLeaving(w, 2, "documents/u/x", None) && Passes(w, 2);
  }

  /** Row 1 is scoped but its object is missing; row 2, of another company, is intact; their legacy object is left. */
  function WorldWithALeftover(): World {
    World(map[1 := Row(Some("a"), Some("documents/a/u/x"), None), 2 := Row(Some("b"), Some("documents/b/u/x"), None)],
          map["documents/u/x" := [], "documents/b/u/x" := []], 3)
  }

  lemma LeftoverKeys()
    ensures var w := WorldWithALeftover();
            && IsScoped(w.rows[1]) && LegacyKey(w.rows[1]) == "documents/u/x"
            && IsScoped(w.rows[2]) && LegacyKey(w.rows[2]) == "documents/u/x"
            && !IsCompanyScoped("documents/u/x", "a") && !IsCompanyScoped("documents/u/x", "b")
  {
    assert Scope("a") == "documents/a/" && Scope("b") == "documents/b/";
    assert "documents/a/u/x" == Scope("a") + "u/x" && "documents/b/u/x" == Scope("b") + "u/x";
    assert "documents/a/u/x"[|Scope("a")|..] == "u/x" && "documents/b/u/x"[|Scope("b")|..] == "u/x";
    assert "documents/u/x" == ROOT + "u/x";
    assert "documents/u/x"[10] == 'u' && Scope("b")[10] == 'b' && Scope("a")[10] == 'a';
  }

  /** A deleting run for company b alone loses the document of row 1, which an unfiltered one would have checked. */
  lemma LeftoverIsLostToAFilter()
    ensures var w := WorldWithALeftover();
            && Bounded(w) && Segregated(w) && Recoverable(w, 1)
            && IsLost(w, 1, Some("b")) && !IsLost(w, 1, None) && NoBrokenStragglers(w, None)
  {
    hide IsScoped, LegacyKey, IsCompanyScoped, Sweeps, Vacates;
    LeftoverKeys();
    var w := WorldWithALeftover();
    var key := "documents/u/x";
    assert |key| != |"documents/a/u/x"| == |"documents/b/u/x"|;
    assert "documents/a/u/x"[10] != "documents/b/u/x"[10];
    assert !IsCandidate(w.rows[1]) && !IsCandidate(w.rows[2]);
    LeftoverIsSwept();
  }

  lemma LeftoverIsSwept()
    ensures var w, key := WorldWithALeftover(), "documents/u/x";
            && !Vacates(w, key, Some("b")) && !Vacates(w, key, None)
            && Sweeps(w, key, Some("b")) && !Sweeps(w, key, None)
  {
    hide IsScoped, LegacyKey, IsCompanyScoped;
    LeftoverKeys();
    var w := WorldWithALeftover();
    var key := "documents/u/x";
    assert |key| != |"documents/a/u/x"| == |"documents/b/u/x"|;
    assert "documents/a/u/x"[10] != "documents/b/u/x"[10];
    assert !IsCandidate(w.rows[1]) && !IsCandidate(w.rows[2]);
    assert IsSweepRow(w, 2, key, Some("b")) && IsSweepRow(w, 1, key, None);
  }

  // ------------------------------------------------------------ where a world is heading

  /** No legacy key looks like a scoped key: the user ids in them are never company ids. */
  ghost predicate Segregated(w: World) {
    forall id, other | id in w.rows && other in w.rows && IsPlaced(w.rows[id]) && w.rows[other].company.Some? ::
      !IsCompanyScoped(LegacyKey(w.rows[id]), w.rows[other].company.value)
  }

  /** Every document of the layout is intact and carries its hash. */
  ghost predicate Ready(w: World) {
    && Segregated(w)
    && (forall id | id in w.rows && IsPlaced(w.rows[id]) ::
          HasHash(w.rows[id]) && Content(w, id).Some?)
  }

  /** The row will be repointed: its target is free, or already holds the same bytes. */
  predicate Migrates(w: World, id: nat) {
    && id in w.rows
    && IsCandidate(w.rows[id])
    && w.rows[id].path.value in w.objects
    && (Target(w.rows[id]) in w.objects ==> w.objects[Target(w.rows[id])] == w.objects[w.rows[id].path.value])
  }

  function FinalRow(w: World, id: nat): Row
    requires id in w.rows
  {
    if Migrates(w, id) then Moved(w.rows[id]) else w.rows[id]
  }

  predicate IsLegacyKeyOfARow(w: World, key: string) {
    exists id | id in w.rows :: IsPlaced(w.rows[id]) && LegacyKey(w.rows[id]) == key
  }

  /** A legacy key that no row will point at any more. */
  predicate IsAbandoned(w: World, key: string) {
    && IsLegacyKeyOfARow(w, key)
    && (forall id | id in w.rows :: FinalRow(w, id).path != Some(key))
  }

  predicate IsCopyOf(w: World, id: nat, key: string) {
    Migrates(w, id) && Target(w.rows[id]) == key
  }

  ghost function FinalObject(w: World, key: string, deleteSource: bool): Option<Bytes> {
    if deleteSource && IsAbandoned(w, key) then None
    else if key in w.objects then Some(w.objects[key])
    else if exists id :: IsCopyOf(w, id, key) then
      var id :| IsCopyOf(w, id, key);
      Some(w.objects[w.rows[id].path.value])
    else None
  }

  lemma FinalCopy(w: World, id: nat, deleteSource: bool)
    requires Ready(w) && Migrates(w, id)
    ensures var t := Target(w.rows[id]);
            FinalObject(w, t, deleteSource) == Some(w.objects[w.rows[id].path.value])
  {
    var t := Target(w.rows[id]);
    MovedIsScoped(w.rows[id]);
    assert !IsLegacyKeyOfARow(w, t);
    assert IsCopyOf(w, id, t);
    forall other | IsCopyOf(w, other, t)
      ensures w.rows[other].path == w.rows[id].path
    {
      TargetsAreDistinct(w.rows[id], w.rows[other]);
    }
  }

  /** Two worlds are heading for the same rows and the same objects. */
  ghost predicate SameGoal(w: World, w': World, deleteSource: bool) {
    && w'.rows.Keys == w.rows.Keys
    && (forall id | id in w.rows :: FinalRow(w', id) == FinalRow(w, id))
    && (forall key :: FinalObject(w', key, deleteSource) == FinalObject(w, key, deleteSource))
  }

  /** Abandonment only depends on the goal, so it does not change during a run. */
  lemma SameGoalSameAbandoned(w: World, w': World, key: string, deleteSource: bool)
    requires SameGoal(w, w', deleteSource)
    ensures IsAbandoned(w', key) == IsAbandoned(w, key)
  {
    forall id | id in w.rows
      ensures IsPlaced(w'.rows[id]) == IsPlaced(w.rows[id])
      ensures IsPlaced(w.rows[id]) ==> LegacyKey(w'.rows[id]) == LegacyKey(w.rows[id])
      ensures FinalRow(w', id) == FinalRow(w, id)
    {
      assert FinalRow(w', id) == FinalRow(w, id);
      if IsCandidate(w.rows[id]) { MovedIsScoped(w.rows[id]); }
      if IsCandidate(w'.rows[id]) { MovedIsScoped(w'.rows[id]); }
    }
  }

  /** Heading for one world without deleting means heading for one world with it, too. */
  lemma SameGoalForEitherFlag(w: World, w': World, deleteSource: bool)
    requires SameGoal(w, w', false)
    ensures SameGoal(w, w', deleteSource)
  {
    forall key
      ensures FinalObject(w', key, deleteSource) == FinalObject(w, key, deleteSource)
    {
      SameGoalSameAbandoned(w, w', key, false);
      assert FinalObject(w', key, false) == FinalObject(w, key, false);
    }
  }

  /** Nothing is left to migrate, and with deleteSource no abandoned object is left. */
  ghost predicate AtRest(w: World, deleteSource: bool) {
    && (forall id | id in w.rows :: !Migrates(w, id))
    && (deleteSource ==> forall key | key in w.objects :: !IsAbandoned(w, key))
  }

  /** A world at rest is its own goal, so two of them with one goal are the same world. */
  lemma RestIsUnique(w: World, w': World, deleteSource: bool)
    requires AtRest(w, deleteSource) && AtRest(w', deleteSource)
    requires SameGoal(w, w', deleteSource)
    ensures w.rows == w'.rows && w.objects == w'.objects
  {
    forall id | id in w.rows
      ensures w.rows[id] == w'.rows[id]
    {
      assert FinalRow(w', id) == FinalRow(w, id);
    }
    forall key
      ensures key in w.objects <==> key in w'.objects
      ensures key in w.objects && key in w'.objects ==> w.objects[key] == w'.objects[key]
    {
      assert FinalObject(w', key, deleteSource) == FinalObject(w, key, deleteSource);
    }
  }

  /** At rest, a row of the layout is still unscoped exactly when other bytes block its target. */
  lemma RestMeansScoped(w: World, deleteSource: bool, id: nat)
    requires Ready(w) && AtRest(w, deleteSource) && id in w.rows && IsPlaced(w.rows[id])
    ensures !IsScoped(w.rows[id]) <==>
              && IsCandidate(w.rows[id]) && Target(w.rows[id]) in w.objects
              && Content(w, id) != Some(w.objects[Target(w.rows[id])])
  {
    assert !Migrates(w, id) && Content(w, id).Some?;
  }

  lemma UploadKeepsGoal(w: World, w': World, id: nat, deleteSource: bool)
    requires Ready(w) && Migrates(w, id) && Target(w.rows[id]) !in w.objects
    requires w' == w.(objects := w.objects[Target(w.rows[id]) := w.objects[w.rows[id].path.value]])
    ensures Ready(w') && SameGoal(w, w', deleteSource)
  {
    var t := Target(w.rows[id]);
    MovedIsScoped(w.rows[id]);
    assert !IsLegacyKeyOfARow(w, t);
    forall i | i in w.rows
      ensures FinalRow(w', i) == FinalRow(w, i)
      ensures IsPlaced(w.rows[i]) ==> Content(w', i) == Content(w, i)
    {
      if IsCandidate(w.rows[i]) {
        assert w.rows[i].path != Some(t);
        if Target(w.rows[i]) == t {
          TargetsAreDistinct(w.rows[i], w.rows[id]);
        }
      }
    }
    forall key
      ensures FinalObject(w', key, deleteSource) == FinalObject(w, key, deleteSource)
    {
      assert IsLegacyKeyOfARow(w', key) == IsLegacyKeyOfARow(w, key);
      assert IsAbandoned(w', key) == IsAbandoned(w, key);
      if key == t {
        FinalCopy(w, id, deleteSource);
      } else {
        assert forall i :: IsCopyOf(w', i, key) == IsCopyOf(w, i, key);
        SameCopies(w, w', key);
      }
    }
  }

  /** The choice inside FinalObject does not matter: all copies of one key have one source. */
  lemma SameCopies(w: World, w': World, key: string)
    requires forall i :: IsCopyOf(w', i, key) == IsCopyOf(w, i, key)
    requires forall i | IsCopyOf(w, i, key) && IsCopyOf(w', i, key) ::
               w'.rows[i] == w.rows[i] && w'.objects[w.rows[i].path.value] == w.objects[w.rows[i].path.value]
    ensures forall i, j | IsCopyOf(w, i, key) && IsCopyOf(w', j, key) ::
              w.objects[w.rows[i].path.value] == w'.objects[w'.rows[j].path.value]
  {
    forall i, j | IsCopyOf(w, i, key) && IsCopyOf(w', j, key)
      ensures w.objects[w.rows[i].path.value] == w'.objects[w'.rows[j].path.value]
    {
      TargetsAreDistinct(w.rows[i], w.rows[j]);
    }
  }

  lemma RepointKeepsGoal(w: World, w': World, id: nat, deleteSource: bool)
    requires Ready(w) && Migrates(w, id) && Target(w.rows[id]) in w.objects
    requires w' == w.(rows := w.rows[id := Moved(w.rows[id])])
    ensures Ready(w') && SameGoal(w, w', deleteSource)
  {
    var t := Target(w.rows[id]);
    MovedIsScoped(w.rows[id]);
    assert Segregated(w');
    forall i | i in w.rows
      ensures FinalRow(w', i) == FinalRow(w, i)
      ensures IsPlaced(w'.rows[i]) ==> Content(w', i) == Content(w, i)
    {
      assert i != id ==> w'.rows[i] == w.rows[i];
    }
    RepointKeepsObjects(w, w', id, deleteSource);
  }

  lemma RepointKeepsObjects(w: World, w': World, id: nat, deleteSource: bool)
    requires Migrates(w, id) && Target(w.rows[id]) in w.objects
    requires w' == w.(rows := w.rows[id := Moved(w.rows[id])])
    requires forall i | i in w.rows :: FinalRow(w', i) == FinalRow(w, i)
    ensures forall key :: FinalObject(w', key, deleteSource) == FinalObject(w, key, deleteSource)
  {
    hide FinalObject, IsLegacyKeyOfARow, FinalRow;
    MovedIsScoped(w.rows[id]);
    forall key
      ensures FinalObject(w', key, deleteSource) == FinalObject(w, key, deleteSource)
    {
      SameLegacyKeys(w, w', id, key);
      assert IsAbandoned(w', key) == IsAbandoned(w, key);
      if key !in w.objects {
        assert forall i :: IsCopyOf(w', i, key) == IsCopyOf(w, i, key);
      }
      SameFinalObject(w, w', key, deleteSource);
    }
  }

  /** A key whose fate is decided alike ends alike. */
  lemma SameFinalObject(w: World, w': World, key: string, deleteSource: bool)
    requires IsAbandoned(w', key) == IsAbandoned(w, key)
    requires !(deleteSource && IsAbandoned(w, key)) ==>
               && (key in w'.objects <==> key in w.objects)
               && (key in w.objects ==> w'.objects[key] == w.objects[key])
    requires key !in w.objects ==> forall i :: IsCopyOf(w', i, key) == IsCopyOf(w, i, key)
    requires key !in w.objects ==> forall i | IsCopyOf(w, i, key) && IsCopyOf(w', i, key) ::
               w'.rows[i] == w.rows[i] && w'.objects[w.rows[i].path.value] == w.objects[w.rows[i].path.value]
    ensures FinalObject(w', key, deleteSource) == FinalObject(w, key, deleteSource)
  {
    hide IsAbandoned;
    if key !in w.objects {
      SameCopies(w, w', key);
    }
  }

  lemma SameGoalIsSymmetric(a: World, b: World, deleteSource: bool)
    requires SameGoal(a, b, deleteSource)
    ensures SameGoal(b, a, deleteSource)
  {
    forall id | id in b.rows
      ensures FinalRow(a, id) == FinalRow(b, id)
    {
      assert FinalRow(b, id) == FinalRow(a, id);
    }
    forall key
      ensures FinalObject(a, key, deleteSource) == FinalObject(b, key, deleteSource)
    {
      assert FinalObject(b, key, deleteSource) == FinalObject(a, key, deleteSource);
    }
  }

  lemma SameGoalIsTransitive(a: World, b: World, c: World, deleteSource: bool)
    requires SameGoal(a, b, deleteSource) && SameGoal(b, c, deleteSource)
    ensures SameGoal(a, c, deleteSource)
  {
    forall id | id in a.rows
      ensures FinalRow(c, id) == FinalRow(a, id)
    {
      assert FinalRow(b, id) == FinalRow(a, id) && FinalRow(c, id) == FinalRow(b, id);
    }
    forall key
      ensures FinalObject(c, key, deleteSource) == FinalObject(a, key, deleteSource)
    {
      assert FinalObject(b, key, deleteSource) == FinalObject(a, key, deleteSource);
      assert FinalObject(c, key, deleteSource) == FinalObject(b, key, deleteSource);
    }
  }

  /** The key holds a copy that no row points at yet, for a row that will be repointed to it. */
  ghost predicate IsUnusedCopy(w: World, key: string) {
    exists id | id in w.rows :: Migrates(w, id) && Target(w.rows[id]) == key && key in w.objects
  }

  /** Rolling back an unused copy leaves the goal as it was: it undoes an upload. */
  lemma RollbackKeepsGoal(w: World, w': World, key: string, deleteSource: bool)
    requires Ready(w) && IsUnusedCopy(w, key) && !References(w, key)
    requires w' == w.(objects := w.objects - {key})
    ensures Ready(w') && SameGoal(w, w', deleteSource)
  {
    var id :| id in w.rows && Migrates(w, id) && Target(w.rows[id]) == key && key in w.objects;
    MovedIsScoped(w.rows[id]);
    forall i | i in w.rows
      ensures Content(w', i) == Content(w, i)
    {
      assert w.rows[i].path != Some(key);
    }
    assert Ready(w');
    assert w.objects == w'.objects[key := w'.objects[w.rows[id].path.value]];
    UploadKeepsGoal(w', w, id, deleteSource);
    SameGoalIsSymmetric(w', w, deleteSource);
  }

  lemma SameLegacyKeys(w: World, w': World, id: nat, key: string)
    requires id in w.rows && IsCandidate(w.rows[id])
    requires w' == w.(rows := w.rows[id := Moved(w.rows[id])])
    ensures IsLegacyKeyOfARow(w', key) == IsLegacyKeyOfARow(w, key)
  {
    MovedIsScoped(w.rows[id]);
    if IsLegacyKeyOfARow(w, key) {
      var i :| i in w.rows && IsPlaced(w.rows[i]) && LegacyKey(w.rows[i]) == key;
      assert i in w'.rows && IsPlaced(w'.rows[i]) && LegacyKey(w'.rows[i]) == key;
    }
    if IsLegacyKeyOfARow(w', key) {
      var i :| i in w'.rows && IsPlaced(w'.rows[i]) && LegacyKey(w'.rows[i]) == key;
      assert i in w.rows && IsPlaced(w.rows[i]) && LegacyKey(w.rows[i]) == key;
    }
  }

  lemma RemovalKeepsGoal(w: World, w': World, key: string)
    requires Ready(w) && IsLegacyKeyOfARow(w, key) && !References(w, key)
    requires w' == w.(objects := w.objects - {key})
    ensures Ready(w') && SameGoal(w, w', true)
  {
    var owner :| owner in w.rows && IsPlaced(w.rows[owner]) && LegacyKey(w.rows[owner]) == key;
    forall i | i in w.rows
      ensures FinalRow(w', i) == FinalRow(w, i) && FinalRow(w, i).path != Some(key)
      ensures Migrates(w', i) == Migrates(w, i)
      ensures Content(w', i) == Content(w, i)
    {
      assert w.rows[i].path != Some(key);
      if IsCandidate(w.rows[i]) {
        MovedIsScoped(w.rows[i]);
        assert Target(w.rows[i]) != key;
      }
    }
    assert IsAbandoned(w, key);
    RemovalKeepsObjects(w, w', key);
  }

  lemma RemovalKeepsObjects(w: World, w': World, key: string)
    requires IsAbandoned(w, key) && w' == w.(objects := w.objects - {key})
    requires forall i | i in w.rows :: FinalRow(w', i) == FinalRow(w, i) && Migrates(w', i) == Migrates(w, i)
    ensures forall k :: FinalObject(w', k, true) == FinalObject(w, k, true)
  {
    hide FinalObject, FinalRow;
    forall k
      ensures FinalObject(w', k, true) == FinalObject(w, k, true)
    {
      assert IsLegacyKeyOfARow(w', k) == IsLegacyKeyOfARow(w, k);
      assert IsAbandoned(w', k) == IsAbandoned(w, k);
      assert forall i :: IsCopyOf(w', i, k) == IsCopyOf(w, i, k);
      SameFinalObject(w, w', k, true);
    }
  }
}
