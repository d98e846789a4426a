/**
 The seed generator's versions, and the guarded upsert that applies its seeds to the registry: which bodies end
 up in the registry when the emitted seeds are applied in any order, some of them more than once.
 */
module SkillSeed {
  /** A content hash, taken to be injective: it carries the text it was made from. */
  datatype Hash = Sha256(text: string)

  datatype Entry = Entry(hash: Hash, version: nat)

  type Manifest = map<string, Entry>

  /** A discovered atom. The details stand for every other column of its row; only the body is hashed. */
  datatype Atom = Atom(id: string, details: string, body: string)

  datatype Row = Row(details: string, body: string, version: nat)

  type Seed = map<string, Row>

  type Registry = map<string, Row>

  datatype Outcome =
    | NothingFound
    | UpToDate
    | Stale(added: set<string>, changed: set<string>, removed: set<string>)
    | Emitted(seed: Seed)

  // ------------------------------------------------------------ one run of the generator

  function Ids(atoms: seq<Atom>): set<string> {
    set a | a in atoms :: a.id
  }

  /** The atom that a list holds for an id: the last one, as the Map and the records of the source keep it. */
  function Find(atoms: seq<Atom>, id: string): (atom: Atom)
    requires id in Ids(atoms)
    ensures atom in atoms && atom.id == id
  {
    var last := atoms[|atoms| - 1];
    assert atoms == atoms[..|atoms| - 1] + [last];
    if last.id == id then last else Find(atoms[..|atoms| - 1], id)
  }

  /** The manifest lists exactly the ids on disk, with their present hashes. */
  predicate Current(manifest: Manifest, atoms: seq<Atom>) {
    && manifest.Keys == Ids(atoms)
    && forall id | id in manifest :: manifest[id].hash == Sha256(Find(atoms, id).body)
  }

  function NextVersion(manifest: Manifest, id: string, hash: Hash): nat {
    if id !in manifest then 1
    else if manifest[id].hash == hash then manifest[id].version
    else manifest[id].version + 1
  }

  function NextManifest(manifest: Manifest, atoms: seq<Atom>): Manifest {
    map id | id in Ids(atoms) ::
      var hash := Sha256(Find(atoms, id).body);
      Entry(hash, NextVersion(manifest, id, hash))
  }

  function SeedFor(manifest: Manifest, atoms: seq<Atom>): Seed {
    map id | id in Ids(atoms) ::
      var a := Find(atoms, id);
      Row(a.details, a.body, NextVersion(manifest, id, Sha256(a.body)))
  }

  /** What a run leaves as the committed manifest. */
  function Step(manifest: Manifest, atoms: seq<Atom>): Manifest {
    if atoms == [] || Current(manifest, atoms) then manifest else NextManifest(manifest, atoms)
  }

  lemma FindInLonger(atoms: seq<Atom>, n: nat, id: string)
    requires n < |atoms| && (id in Ids(atoms[..n]) || atoms[n].id == id)
    ensures id in Ids(atoms[..n + 1])
    ensures Find(atoms[..n + 1], id) == if atoms[n].id == id then atoms[n] else Find(atoms[..n], id)
  {
    assert atoms[..n + 1] == atoms[..n] + [atoms[n]];
    assert atoms[..n + 1][..n] == atoms[..n];
    assert atoms[n] in atoms[..n + 1];
  }

  lemma IdsOfLonger(atoms: seq<Atom>, n: nat)
    requires n < |atoms|
    ensures Ids(atoms[..n + 1]) == Ids(atoms[..n]) + {atoms[n].id}
  {
    assert atoms[..n + 1] == atoms[..n] + [atoms[n]];
    assert atoms[n] in atoms[..n + 1];
  }

  lemma AtomHasItsId(atoms: seq<Atom>, i: nat)
    requires i < |atoms|
    ensures atoms[i].id in Ids(atoms)
  {
    assert atoms[i] in atoms;
  }

  lemma NoAtoms(atoms: seq<Atom>)
    ensures Ids(atoms[..0]) == {}
  {
  }

  /** The map from id to hash that the run builds first. */
  method HashesOnDisk(atoms: seq<Atom>) returns (onDisk: map<string, Hash>)
    ensures onDisk.Keys == Ids(atoms)
    ensures forall id | id in onDisk :: onDisk[id] == Sha256(Find(atoms, id).body)
  {
    onDisk := map[];
    for i := 0 to |atoms|
      invariant onDisk.Keys == Ids(atoms[..i])
      invariant forall id | id in onDisk :: onDisk[id] == Sha256(Find(atoms[..i], id).body)
    {
      IdsOfLonger(atoms, i);
      forall id | id in onDisk.Keys + {atoms[i].id}
        ensures id in Ids(atoms[..i + 1])
        ensures Find(atoms[..i + 1], id) == if atoms[i].id == id then atoms[i] else Find(atoms[..i], id)
      {
        FindInLonger(atoms, i, id);
      }
      onDisk := onDisk[atoms[i].id := Sha256(atoms[i].body)];
    }
    assert atoms[..|atoms|] == atoms;
  }

  /** The ids that are new and those whose hash moved. */
  method Drift(onDisk: map<string, Hash>, manifest: Manifest) returns (added: set<string>, changed: set<string>)
    ensures added == onDisk.Keys - manifest.Keys
    ensures forall id :: id in changed <==> id in onDisk && id in manifest && manifest[id].hash != onDisk[id]
  {
    added, changed := {}, {};
    var todo := onDisk.Keys;
    while todo != {}
      invariant todo <= onDisk.Keys
      invariant added == onDisk.Keys - todo - manifest.Keys
      invariant forall id :: id in changed <==>
                             id in onDisk && id !in todo && id in manifest && manifest[id].hash != onDisk[id]
      decreases todo
    {
      var id :| id in todo;
      todo := todo - {id};
      if id !in manifest {
        added := added + {id};
      } else if manifest[id].hash != onDisk[id] {
        changed := changed + {id};
      }
    }
  }

  /** The atom at i is the last one with its id: the one that the Map and the records keep. */
  ghost predicate IsLast(atoms: seq<Atom>, i: nat) {
    i < |atoms| && forall j | i < j < |atoms| :: atoms[j].id != atoms[i].id
  }

  lemma {:induction false} FindsTheLast(atoms: seq<Atom>, i: nat)
    requires IsLast(atoms, i)
    ensures atoms[i].id in Ids(atoms) && Find(atoms, atoms[i].id) == atoms[i]
  {
    AtomHasItsId(atoms, i);
    var n := |atoms| - 1;
    if i < n {
      FindsTheLast(atoms[..n], i);
    }
  }

  lemma {:induction false} EveryIdHasALast(atoms: seq<Atom>, id: string) returns (i: nat)
    requires id in Ids(atoms)
    ensures IsLast(atoms, i) && atoms[i].id == id
  {
    var n := |atoms| - 1;
    assert atoms == atoms[..n] + [atoms[n]];
    if atoms[n].id == id {
      i := n;
    } else {
      i := EveryIdHasALast(atoms[..n], id);
    }
  }

  /** The row an emitted seed has for an atom, and the entry that is committed with it. */
  ghost predicate IsRowFor(row: Row, entry: Entry, atom: Atom, manifest: Manifest) {
    && row.details == atom.details && row.body == atom.body && entry.hash == Sha256(atom.body)
    && row.version == entry.version
    && row.version == (if atom.id !in manifest then 1
                       else if manifest[atom.id].hash == Sha256(atom.body) then manifest[atom.id].version
                       else manifest[atom.id].version + 1)
  }

  /** The seed and its manifest hold one row and one entry for each id on disk, taken from the last atom with it. */
  ghost predicate AreRowsFor(seed: Seed, next: Manifest, atoms: seq<Atom>, manifest: Manifest) {
    && (forall id :: id in seed <==> exists i | 0 <= i < |atoms| :: atoms[i].id == id)
    && next.Keys == seed.Keys
    && forall i: nat | IsLast(atoms, i) ::
         && atoms[i].id in seed && atoms[i].id in next
         && IsRowFor(seed[atoms[i].id], next[atoms[i].id], atoms[i], manifest)
  }

  lemma EmittedRows(manifest: Manifest, atoms: seq<Atom>)
    ensures AreRowsFor(SeedFor(manifest, atoms), NextManifest(manifest, atoms), atoms, manifest)
  {
    hide Find;
    var seed, next := SeedFor(manifest, atoms), NextManifest(manifest, atoms);
    forall i: nat | IsLast(atoms, i)
      ensures atoms[i].id in seed && IsRowFor(seed[atoms[i].id], next[atoms[i].id], atoms[i], manifest)
    {
      FindsTheLast(atoms, i);
    }
    forall id
      ensures id in seed <==> exists i | 0 <= i < |atoms| :: atoms[i].id == id
    {
      if i :| 0 <= i < |atoms| && atoms[i].id == id {
        AtomHasItsId(atoms, i);
      }
    }
  }

  /** The manifest lists the ids on disk and no others, each with the hash of the last atom that has it. */
  lemma CurrentExactlyWhen(manifest: Manifest, atoms: seq<Atom>)
    ensures Current(manifest, atoms) <==>
            && (forall id :: id in manifest <==> exists i | 0 <= i < |atoms| :: atoms[i].id == id)
            && (forall i: nat | IsLast(atoms, i) ::
                  atoms[i].id in manifest && manifest[atoms[i].id].hash == Sha256(atoms[i].body))
  {
    hide Find;
    forall id
      ensures id in Ids(atoms) <==> exists i | 0 <= i < |atoms| :: atoms[i].id == id
    {
      if i :| 0 <= i < |atoms| && atoms[i].id == id {
        AtomHasItsId(atoms, i);
      }
    }
    assert manifest.Keys == Ids(atoms) <==> forall id :: id in manifest <==> id in Ids(atoms);
    forall i: nat | IsLast(atoms, i)
      ensures atoms[i].id in Ids(atoms) && Find(atoms, atoms[i].id) == atoms[i]
    {
      FindsTheLast(atoms, i);
    }
    forall id | id in Ids(atoms)
      ensures exists i: nat :: IsLast(atoms, i) && atoms[i].id == id
    {
      var i := EveryIdHasALast(atoms, id);
    }
  }

  /** The row of each atom, and the manifest to commit. */
  method NewVersions(atoms: seq<Atom>, onDisk: map<string, Hash>, manifest: Manifest)
    returns (seed: Seed, next: Manifest)
    requires onDisk.Keys == Ids(atoms)
    requires forall id | id in onDisk :: onDisk[id] == Sha256(Find(atoms, id).body)
    ensures seed == SeedFor(manifest, atoms) && next == NextManifest(manifest, atoms)
    ensures AreRowsFor(seed, next, atoms, manifest)
  {
    hide Find, Ids, NextVersion, AreRowsFor;
    seed, next := map[], map[];
    NoAtoms(atoms);
    for i := 0 to |atoms|
      invariant seed.Keys == next.Keys == Ids(atoms[..i])
      invariant next.Keys <= onDisk.Keys
      invariant forall id | id in next :: next[id] == Entry(onDisk[id], NextVersion(manifest, id, onDisk[id]))
      invariant forall id | id in seed ::
                  var a := Find(atoms[..i], id);
                  seed[id] == Row(a.details, a.body, NextVersion(manifest, id, onDisk[id]))
    {
      var atom := atoms[i];
      AtomHasItsId(atoms, i);
      var hash := onDisk[atom.id];
      var version := NextVersion(manifest, atom.id, hash);
      IdsOfLonger(atoms, i);
      forall id | id in Ids(atoms[..i]) + {atom.id}
        ensures id in Ids(atoms[..i + 1])
        ensures Find(atoms[..i + 1], id) == if atom.id == id then atom else Find(atoms[..i], id)
      {
        FindInLonger(atoms, i, id);
      }
      seed := seed[atom.id := Row(atom.details, atom.body, version)];
      next := next[atom.id := Entry(hash, version)];
    }
    assert atoms[..|atoms|] == atoms;
    EmittedRows(manifest, atoms);
  }

  lemma NoDriftMeansCurrent(atoms: seq<Atom>, onDisk: map<string, Hash>, manifest: Manifest, changed: set<string>)
    requires onDisk.Keys == Ids(atoms)
    requires forall id | id in onDisk :: onDisk[id] == Sha256(Find(atoms, id).body)
    requires forall id :: id in changed <==> id in onDisk && id in manifest && manifest[id].hash != onDisk[id]
    ensures Current(manifest, atoms) <==>
              onDisk.Keys - manifest.Keys == {} && changed == {} && manifest.Keys - onDisk.Keys == {}
  {
    hide Find;
    if onDisk.Keys - manifest.Keys == {} && changed == {} && manifest.Keys - onDisk.Keys == {} {
      forall id
        ensures id in manifest <==> id in onDisk
      {
        assert id !in onDisk.Keys - manifest.Keys && id !in manifest.Keys - onDisk.Keys;
      }
      assert manifest.Keys == onDisk.Keys;
    }
  }

  /**
   One run. It emits a seed exactly when some atom was added, changed or removed since the manifest was
   committed; a check run only reports that.
   */
  method Generate(atoms: seq<Atom>, manifest: Manifest, checkOnly: bool) returns (outcome: Outcome, next: Manifest)
    ensures outcome == NothingFound <==> atoms == []
    ensures outcome == UpToDate <==> atoms != [] && Current(manifest, atoms)
    ensures outcome.Stale? <==> atoms != [] && !Current(manifest, atoms) && checkOnly
    ensures outcome.Emitted? ==>
              outcome.seed == SeedFor(manifest, atoms) && AreRowsFor(outcome.seed, next, atoms, manifest)
    ensures outcome.Stale? ==>
              && outcome.added == Ids(atoms) - manifest.Keys
              && outcome.removed == manifest.Keys - Ids(atoms)
              && forall id :: id in outcome.changed <==>
                   id in Ids(atoms) && id in manifest && manifest[id].hash != Sha256(Find(atoms, id).body)
    ensures next == if checkOnly then manifest else Step(manifest, atoms)
  {
    hide Find, Current, SeedFor, NextManifest, NextVersion, AreRowsFor;
    next := manifest;
    if |atoms| == 0 {
      return NothingFound, next;
    }
    var onDisk := HashesOnDisk(atoms);
    var added, changed := Drift(onDisk, manifest);
    var removed := manifest.Keys - onDisk.Keys;
    NoDriftMeansCurrent(atoms, onDisk, manifest, changed);
    var hasDrift := |added| > 0 || |changed| > 0 || |removed| > 0;
    if checkOnly {
      if !hasDrift {
        return UpToDate, next;
      }
      return Stale(added, changed, removed), next;
    }
    if !hasDrift {
      return UpToDate, next;
    }
    var seed;
    seed, next := NewVersions(atoms, onDisk, manifest);
    outcome := Emitted(seed);
  }

  // ------------------------------------------------------------ a history of runs

  function ManifestAfter(runs: seq<seq<Atom>>): Manifest {
    if runs == [] then map[] else Step(ManifestAfter(runs[..|runs| - 1]), runs[|runs| - 1])
  }

  predicate Emits(runs: seq<seq<Atom>>, i: nat) {
    i < |runs| && runs[i] != [] && !Current(ManifestAfter(runs[..i]), runs[i])
  }

  function SeedOf(runs: seq<seq<Atom>>, i: nat): Seed
    requires i < |runs|
  {
    SeedFor(ManifestAfter(runs[..i]), runs[i])
  }

  /** The atom is in every run between two runs that have it; runs that find no atoms at all do nothing. */
  ghost predicate NeverReadded(runs: seq<seq<Atom>>, id: string) {
    forall i, k, j | 0 <= i < k < j < |runs| && id in Ids(runs[i]) && id in Ids(runs[j]) && runs[k] != [] ::
      id in Ids(runs[k])
  }

  lemma StepsForward(runs: seq<seq<Atom>>, i: nat)
    requires i < |runs|
    ensures ManifestAfter(runs[..i + 1]) == Step(ManifestAfter(runs[..i]), runs[i])
    ensures runs[i] != [] ==> ManifestAfter(runs[..i + 1]) == NextManifest(ManifestAfter(runs[..i]), runs[i])
  {
    assert runs[..i + 1][..i] == runs[..i];
    var m := ManifestAfter(runs[..i]);
    if runs[i] != [] && Current(m, runs[i]) {
      assert NextManifest(m, runs[i]) == m;
    }
  }

  /** A row of a seed carries the version and the hashed text of the manifest committed with it. */
  lemma SeedAgreesWithManifest(runs: seq<seq<Atom>>, i: nat, id: string)
    requires i < |runs| && runs[i] != [] && id in Ids(runs[i])
    ensures id in SeedOf(runs, i) && id in ManifestAfter(runs[..i + 1])
    ensures var row, entry := SeedOf(runs, i)[id], ManifestAfter(runs[..i + 1])[id];
            row.version == entry.version && Sha256(row.body) == entry.hash
  {
    StepsForward(runs, i);
  }

  /** While an atom stays, its version never goes down, and the same version means the same body. */
  lemma {:induction false} VersionsIdentifyBodies(runs: seq<seq<Atom>>, id: string, i: nat, j: nat)
    requires i <= j <= |runs| && id in ManifestAfter(runs[..i])
    requires forall k | i <= k < j && runs[k] != [] :: id in Ids(runs[k])
    ensures id in ManifestAfter(runs[..j])
    ensures var early, late := ManifestAfter(runs[..i])[id], ManifestAfter(runs[..j])[id];
            early.version <= late.version && (early.version == late.version ==> early.hash == late.hash)
    decreases j
  {
    if i < j {
      VersionsIdentifyBodies(runs, id, i, j - 1);
      StepsForward(runs, j - 1);
    }
  }

  /** The version the manifest now records for an atom was emitted by some run, with the body of that hash. */
  lemma {:induction false} LatestVersionWasEmitted(runs: seq<seq<Atom>>, id: string) returns (i: nat)
    requires id in ManifestAfter(runs)
    ensures Emits(runs, i) && id in SeedOf(runs, i)
    ensures var row, entry := SeedOf(runs, i)[id], ManifestAfter(runs)[id];
            row.version == entry.version && Sha256(row.body) == entry.hash
  {
    var n := |runs| - 1;
    assert runs[..n + 1] == runs;
    if Emits(runs, n) {
      i := n;
      SeedAgreesWithManifest(runs, i, id);
    } else {
      i := LatestVersionWasEmitted(runs[..n], id);
      assert runs[..n][..i] == runs[..i];
    }
  }

  // ------------------------------------------------------------ applying seeds

  /** INSERT ... ON CONFLICT DO UPDATE ... WHERE registry.version <= EXCLUDED.version. */
  function Upsert(registry: Registry, seed: Seed): Registry {
    map id | id in registry.Keys + seed.Keys ::
      if id in seed && (id !in registry || registry[id].version <= seed[id].version) then seed[id] else registry[id]
  }

  function Apply(registry: Registry, seeds: seq<Seed>): Registry {
    if seeds == [] then registry else Upsert(Apply(registry, seeds[..|seeds| - 1]), seeds[|seeds| - 1])
  }

  /** Where a row of the registry comes from: a seed, or the start when every seed's version is lower. */
  ghost predicate ComesFrom(row: Row, registry: Registry, seeds: seq<Seed>, id: string) {
    || (exists k | 0 <= k < |seeds| :: id in seeds[k] && row == seeds[k][id])
    || (id in registry && row == registry[id]
        && forall k | 0 <= k < |seeds| && id in seeds[k] :: seeds[k][id].version < row.version)
  }

  /** The guard keeps the highest version seen, whatever the order and however often a seed is applied. */
  lemma {:induction false} GuardKeepsTheMaximum(registry: Registry, seeds: seq<Seed>, id: string)
    ensures id in Apply(registry, seeds) <==> id in registry || exists k | 0 <= k < |seeds| :: id in seeds[k]
    ensures id in Apply(registry, seeds) ==>
              var row := Apply(registry, seeds)[id];
              && ComesFrom(row, registry, seeds, id)
              && (id in registry ==> registry[id].version <= row.version)
              && forall k | 0 <= k < |seeds| && id in seeds[k] :: seeds[k][id].version <= row.version
  {
    if seeds != [] {
      var n := |seeds| - 1;
      var init, last := seeds[..n], seeds[n];
      GuardKeepsTheMaximum(registry, init, id);
      assert seeds == init + [last];
      GuardOnce(registry, init, last, Apply(registry, init), id);
    }
  }

  /** One more seed: it takes the row exactly when its version is not lower. */
  lemma GuardOnce(registry: Registry, seeds: seq<Seed>, last: Seed, before: Registry, id: string)
    requires id in before <==> id in registry || exists k | 0 <= k < |seeds| :: id in seeds[k]
    requires id in before ==>
               && ComesFrom(before[id], registry, seeds, id)
               && (id in registry ==> registry[id].version <= before[id].version)
               && forall k | 0 <= k < |seeds| && id in seeds[k] :: seeds[k][id].version <= before[id].version
    ensures var all, after := seeds + [last], Upsert(before, last);
            && (id in after <==> id in registry || exists k | 0 <= k < |all| :: id in all[k])
            && (id in after ==>
                  && ComesFrom(after[id], registry, all, id)
                  && (id in registry ==> registry[id].version <= after[id].version)
                  && forall k | 0 <= k < |all| && id in all[k] :: all[k][id].version <= after[id].version)
  {
    var all := seeds + [last];
    assert forall k | 0 <= k < |seeds| :: all[k] == seeds[k];
    assert all[|seeds|] == last;
  }

  // ------------------------------------------------------------ convergence

  function Seeds(runs: seq<seq<Atom>>, order: seq<nat>): seq<Seed>
    requires forall k | 0 <= k < |order| :: order[k] < |runs|
  {
    seq(|order|, k requires 0 <= k < |order| => SeedOf(runs, order[k]))
  }

  /** A sequence of applications of emitted seeds in which each of them occurs at least once. */
  ghost predicate Covers(runs: seq<seq<Atom>>, order: seq<nat>) {
    && (forall k | 0 <= k < |order| :: Emits(runs, order[k]))
    && (forall i | 0 <= i < |runs| && Emits(runs, i) :: i in order)
  }

  /** Run i emitted the row, with the body and the details of the last atom with the id in its list, at j. */
  ghost predicate FoundOnDisk(runs: seq<seq<Atom>>, id: string, row: Row, i: nat, j: nat) {
    && Emits(runs, i) && id in SeedOf(runs, i) && row == SeedOf(runs, i)[id] && IsLast(runs[i], j)
    && runs[i][j].id == id && row.details == runs[i][j].details && row.body == runs[i][j].body
  }

  lemma EmittedFromDisk(runs: seq<seq<Atom>>, id: string, i: nat) returns (j: nat)
    requires Emits(runs, i) && id in SeedOf(runs, i)
    ensures FoundOnDisk(runs, id, SeedOf(runs, i)[id], i, j)
  {
    hide ManifestAfter;
    j := EveryIdHasALast(runs[i], id);
    EmittedRows(ManifestAfter(runs[..i]), runs[i]);
  }

  /**
   For an atom of the latest run that was never removed and added back, applying the emitted seeds in any order
   leaves its latest body and version, with the details that some run of that version found beside that body, on any
   registry that is not already ahead of them; a registry that is ahead keeps its row.
   */
  lemma EveryOrderConverges(runs: seq<seq<Atom>>, id: string, start: Registry, order: seq<nat>)
    requires runs != [] && id in Ids(runs[|runs| - 1]) && NeverReadded(runs, id)
    requires Covers(runs, order)
    ensures id in ManifestAfter(runs) && id in Apply(start, Seeds(runs, order))
    ensures var version := ManifestAfter(runs)[id].version;
            var row := Apply(start, Seeds(runs, order))[id];
            if id in start && start[id].version > version then row == start[id]
            else
              && row.version == version && row.body == Find(runs[|runs| - 1], id).body
              && exists i, j :: FoundOnDisk(runs, id, row, i, j)
  {
    hide SeedOf, Apply, ManifestAfter, Find;
    LatestBody(runs, id);
    var latest := LatestVersionWasEmitted(runs, id);
    var seeds := Seeds(runs, order);
    assert exists at | 0 <= at < |seeds| :: seeds[at] == SeedOf(runs, latest) by {
      assert Emits(runs, latest);
      var at :| 0 <= at < |order| && order[at] == latest;
      assert seeds[at] == SeedOf(runs, latest);
    }
    GuardKeepsTheMaximum(start, seeds, id);
    forall k | 0 <= k < |seeds| && id in seeds[k]
      ensures NotAhead(seeds[k][id], ManifestAfter(runs)[id])
      ensures exists i, j :: FoundOnDisk(runs, id, seeds[k][id], i, j)
    {
      EmittedIsNotAhead(runs, id, order[k]);
      var j := EmittedFromDisk(runs, id, order[k]);
    }
  }

  lemma LatestBody(runs: seq<seq<Atom>>, id: string)
    requires runs != [] && id in Ids(runs[|runs| - 1])
    ensures id in ManifestAfter(runs)
    ensures ManifestAfter(runs)[id].hash == Sha256(Find(runs[|runs| - 1], id).body)
  {
    assert runs[..|runs| - 1 + 1] == runs;
    StepsForward(runs, |runs| - 1);
  }

  ghost predicate NotAhead(row: Row, entry: Entry) {
    row.version <= entry.version && (row.version == entry.version ==> Sha256(row.body) == entry.hash)
  }

  lemma EmittedIsNotAhead(runs: seq<seq<Atom>>, id: string, i: nat)
    requires runs != [] && id in Ids(runs[|runs| - 1]) && NeverReadded(runs, id)
    requires Emits(runs, i) && id in SeedOf(runs, i)
    ensures id in ManifestAfter(runs) && NotAhead(SeedOf(runs, i)[id], ManifestAfter(runs)[id])
  {
    SeedAgreesWithManifest(runs, i, id);
    VersionsIdentifyBodies(runs, id, i + 1, |runs|);
    assert runs[..|runs|] == runs;
  }

  /** The index of an emitted seed whose version of the atom no emitted seed exceeds. */
  ghost predicate HasHighestVersion(runs: seq<seq<Atom>>, id: string, i: nat) {
    && Emits(runs, i) && id in SeedOf(runs, i)
    && forall j | 0 <= j < |runs| && Emits(runs, j) && id in SeedOf(runs, j) ::
         SeedOf(runs, j)[id].version <= SeedOf(runs, i)[id].version
  }

  /** Every order on an empty registry ends in a row that meets a test, exactly when each highest row meets it. */
  lemma ConvergesExactlyWhen(runs: seq<seq<Atom>>, id: string, test: Row -> bool)
    requires id in ManifestAfter(runs)
    ensures (forall order | Covers(runs, order) ::
               id in Apply(map[], Seeds(runs, order)) && test(Apply(map[], Seeds(runs, order))[id]))
       <==> (forall i | 0 <= i < |runs| && HasHighestVersion(runs, id, i) :: test(SeedOf(runs, i)[id]))
  {
    if forall i | 0 <= i < |runs| && HasHighestVersion(runs, id, i) :: test(SeedOf(runs, i)[id]) {
      forall order | Covers(runs, order)
        ensures id in Apply(map[], Seeds(runs, order)) && test(Apply(map[], Seeds(runs, order))[id])
      {
        var i := AHighestRowRemains(runs, id, order);
      }
    } else {
      var i :| 0 <= i < |runs| && HasHighestVersion(runs, id, i) && !test(SeedOf(runs, i)[id]);
      var order := LastOfAll(runs, id, i);
      assert Covers(runs, order);
    }
  }

  lemma AHighestRowRemains(runs: seq<seq<Atom>>, id: string, order: seq<nat>) returns (i: nat)
    requires id in ManifestAfter(runs) && Covers(runs, order)
    ensures HasHighestVersion(runs, id, i)
    ensures id in Apply(map[], Seeds(runs, order)) && Apply(map[], Seeds(runs, order))[id] == SeedOf(runs, i)[id]
  {
    hide SeedOf, Current, ManifestAfter, Apply;
    var seeds := Seeds(runs, order);
    var latest := LatestVersionWasEmitted(runs, id);
    var at :| 0 <= at < |order| && order[at] == latest;
    assert id in seeds[at];
    GuardKeepsTheMaximum(map[], seeds, id);
    var row := Apply(map[], seeds)[id];
    var k :| 0 <= k < |seeds| && id in seeds[k] && row == seeds[k][id];
    i := order[k];
    forall j | 0 <= j < |runs| && Emits(runs, j) && id in SeedOf(runs, j)
      ensures SeedOf(runs, j)[id].version <= row.version
    {
      var m :| 0 <= m < |order| && order[m] == j;
      assert seeds[m] == SeedOf(runs, j);
    }
  }

  /** An order in which a given highest row comes last, and so remains. */
  lemma LastOfAll(runs: seq<seq<Atom>>, id: string, i: nat) returns (order: seq<nat>)
    requires HasHighestVersion(runs, id, i)
    ensures Covers(runs, order) && id in Apply(map[], Seeds(runs, order))
    ensures Apply(map[], Seeds(runs, order))[id] == SeedOf(runs, i)[id]
  {
    hide SeedOf, Current, ManifestAfter, Apply, Upsert;
    var others := EmittedBelow(runs, |runs|);
    order := others + [i];
    var before, last := Seeds(runs, others), SeedOf(runs, i);
    assert Seeds(runs, order) == before + [last];
    GuardKeepsTheMaximum(map[], before, id);
    var registry := Apply(map[], before);
    if id in registry {
      var k :| 0 <= k < |before| && id in before[k] && registry[id] == before[k][id];
      assert before[k] == SeedOf(runs, others[k]);
    }
    ApplyingOneMore(map[], before, last, id);
  }

  /** A seed whose row is not behind the registry's puts its row there. */
  lemma ApplyingOneMore(registry: Registry, seeds: seq<Seed>, last: Seed, id: string)
    requires id in last
    requires var before := Apply(registry, seeds); id in before ==> before[id].version <= last[id].version
    ensures id in Apply(registry, seeds + [last]) && Apply(registry, seeds + [last])[id] == last[id]
  {
    assert (seeds + [last])[..|seeds|] == seeds;
  }

  lemma {:induction false} EmittedBelow(runs: seq<seq<Atom>>, n: nat) returns (order: seq<nat>)
    requires n <= |runs|
    ensures forall k | 0 <= k < |order| :: Emits(runs, order[k])
    ensures forall i | 0 <= i < n && Emits(runs, i) :: i in order
  {
    if n == 0 {
      order := [];
    } else {
      order := EmittedBelow(runs, n - 1);
      if Emits(runs, n - 1) {
        order := order + [n - 1];
      }
    }
  }

  // ------------------------------------------------------------ where convergence stops

  /** Four runs that change an atom, remove it, and add it back with a third body; another atom stays. */
  function RemovedAndAddedBack(): seq<seq<Atom>> {
    var other := Atom("b", "", "");
    [[other, Atom("a", "", "1")], [other, Atom("a", "", "2")], [other], [other, Atom("a", "", "3")]]
  }

  lemma NextOfTwo(manifest: Manifest, x: Atom, y: Atom)
    requires x.id != y.id
    ensures NextManifest(manifest, [x, y]) ==
              map[x.id := Entry(Sha256(x.body), NextVersion(manifest, x.id, Sha256(x.body))),
                  y.id := Entry(Sha256(y.body), NextVersion(manifest, y.id, Sha256(y.body)))]
  {
    assert [x, y][..1] == [x];
    assert x in [x, y] && y in [x, y];
    assert Ids([x, y]) == {x.id, y.id};
    assert Find([x, y], x.id) == x && Find([x, y], y.id) == y;
  }

  lemma NextOfOne(manifest: Manifest, x: Atom)
    ensures NextManifest(manifest, [x]) ==
              map[x.id := Entry(Sha256(x.body), NextVersion(manifest, x.id, Sha256(x.body)))]
  {
    assert x in [x];
    assert Ids([x]) == {x.id};
  }

  lemma RemovedAndAddedBackManifests()
    ensures var runs, other := RemovedAndAddedBack(), Entry(Sha256(""), 1);
            && ManifestAfter(runs[..0]) == map[]
            && ManifestAfter(runs[..1]) == map["b" := other, "a" := Entry(Sha256("1"), 1)]
            && ManifestAfter(runs[..2]) == map["b" := other, "a" := Entry(Sha256("2"), 2)]
            && ManifestAfter(runs[..3]) == map["b" := other]
            && ManifestAfter(runs[..4]) == map["b" := other, "a" := Entry(Sha256("3"), 1)]
  {
    hide Step, ManifestAfter, NextManifest;
    var runs := RemovedAndAddedBack();
    EmptyHistory(runs);
    StepsForward(runs, 0);
    NextOfTwo(ManifestAfter(runs[..0]), runs[0][0], runs[0][1]);
    StepsForward(runs, 1);
    NextOfTwo(ManifestAfter(runs[..1]), runs[1][0], runs[1][1]);
    StepsForward(runs, 2);
    NextOfOne(ManifestAfter(runs[..2]), runs[2][0]);
    StepsForward(runs, 3);
    NextOfTwo(ManifestAfter(runs[..3]), runs[3][0], runs[3][1]);
  }

  lemma EmptyHistory(runs: seq<seq<Atom>>)
    ensures ManifestAfter(runs[..0]) == map[]
  {
  }

  /** A run that leaves another manifest than it found has emitted a seed. */
  lemma ChangedMeansEmitted(runs: seq<seq<Atom>>, i: nat)
    requires i < |runs| && ManifestAfter(runs[..i + 1]) != ManifestAfter(runs[..i])
    ensures Emits(runs, i)
  {
    StepsForward(runs, i);
  }

  /** An atom that comes back starts again at version 1, and its new body never replaces a later version. */
  lemma ReaddedAtomIsIgnored()
    ensures var runs := RemovedAndAddedBack();
            && Covers(runs, [0, 1, 2, 3])
            && var registry := Apply(map[], Seeds(runs, [0, 1, 2, 3]));
            "a" in registry && registry["a"].body == "2" && Find(runs[3], "a").body == "3"
  {
    hide ManifestAfter, Emits, SeedOf, Apply;
    var runs := RemovedAndAddedBack();
    RemovedAndAddedBackManifests();
    forall i: nat | i < 4
      ensures Emits(runs, i)
    {
      assert "a" in ManifestAfter(runs[..i + 1]) <==> i != 2;
      ChangedMeansEmitted(runs, i);
    }
    var seeds := Seeds(runs, [0, 1, 2, 3]);
    assert runs[1][1].id == runs[3][1].id == "a";
    SeedAgreesWithManifest(runs, 1, "a");
    SeedAgreesWithManifest(runs, 3, "a");
    assert seeds[1] == SeedOf(runs, 1) && "a" in seeds[1] && seeds[1]["a"].version == 2;
    GuardKeepsTheMaximum(map[], seeds, "a");
    forall k | 0 <= k < 4 && k != 1 && "a" in seeds[k]
      ensures seeds[k]["a"].version == 1
    {
      assert "a" in SeedOf(runs, k);
      SeedHasItsIds(runs, k, "a");
      SeedAgreesWithManifest(runs, k, "a");
    }
  }

  lemma SeedHasItsIds(runs: seq<seq<Atom>>, i: nat, id: string)
    requires i < |runs| && id in SeedOf(runs, i)
    ensures id in Ids(runs[i]) && runs[i] != []
  {
  }

  lemma {:induction false} FindIgnoresDetails(a: seq<Atom>, b: seq<Atom>, id: string)
    requires |a| == |b| && forall i | 0 <= i < |a| :: a[i].id == b[i].id && a[i].body == b[i].body
    requires id in Ids(a)
    ensures id in Ids(b) && Find(a, id).body == Find(b, id).body
  {
    var n := |a| - 1;
    assert a == a[..n] + [a[n]] && b == b[..n] + [b[n]];
    if a[n].id == id {
      assert b[n] in b;
    } else {
      FindIgnoresDetails(a[..n], b[..n], id);
    }
  }

  /** Titles, descriptions and the rest are not hashed: changing only them never makes a run emit. */
  lemma DetailsNeverDrift(manifest: Manifest, a: seq<Atom>, b: seq<Atom>)
    requires |a| == |b| && forall i | 0 <= i < |a| :: a[i].id == b[i].id && a[i].body == b[i].body
    requires Current(manifest, a)
    ensures Current(manifest, b) && Step(manifest, b) == manifest
  {
    forall id | id in Ids(a)
      ensures id in Ids(b) && Find(a, id).body == Find(b, id).body
    {
      FindIgnoresDetails(a, b, id);
    }
    forall id | id in Ids(b)
      ensures id in Ids(a)
    {
      FindIgnoresDetails(b, a, id);
    }
    assert Ids(a) == Ids(b);
  }

  /**
   Two seeds applied in either order leave the same row of an atom, unless both carry the same version with
   different contents and the registry is not ahead of them.
   */
  lemma SeedsCommuteExactlyWhen(registry: Registry, a: Seed, b: Seed, id: string)
    requires id in registry.Keys + a.Keys + b.Keys
    ensures Upsert(Upsert(registry, a), b)[id] == Upsert(Upsert(registry, b), a)[id] <==>
            !(id in a && id in b && a[id].version == b[id].version && a[id] != b[id]
              && (id in registry ==> registry[id].version <= a[id].version))
  {
  }

  /**
   Two branches that generate from one manifest end in the same body in either order, exactly when their bodies
   agree or just one of them changed an atom the manifest already had.
   */
  lemma BranchesAgreeExactlyWhen(manifest: Manifest, one: seq<Atom>, two: seq<Atom>, id: string)
    requires id in Ids(one) && id in Ids(two)
    ensures var a, b := SeedFor(manifest, one), SeedFor(manifest, two);
            var x, y := Find(one, id).body, Find(two, id).body;
            Upsert(Upsert(map[], a), b)[id].body == Upsert(Upsert(map[], b), a)[id].body <==>
            x == y || (id in manifest && (manifest[id].hash == Sha256(x) || manifest[id].hash == Sha256(y)))
  {
  }
}
