/** What archiving and reactivating a dossier do to a file tree
    (src/execraft/catalog_archive.py): inventories, verification and the round trip. */
module ArchiveEffects {
  import opened Json
  import opened FileTree
  import Text

  datatype Kind = Task | Project

  datatype Stamp = Stamp(size: nat, digest: string)

  type Inventory = map<Path, Stamp>

  datatype Metadata = Metadata(
    version: int, archiveId: string, kind: Kind, id: string, projectId: string,
    files: Inventory, registration: Option<string>)

  /** File contents. The two YAML documents the archive writes stand for themselves. */
  datatype Content = Raw(text: string) | Archived(metadata: Metadata) | Restored(metadata: Metadata)

  type Dossier = Tree<Content>

  datatype Error =
    | InvalidId | NotFound | NoManifest | AlreadyExists | IdMismatch | ReservedName
    | BadMetadata | IntegrityFailed | ProjectInactive | OsError
      /** The history record could not be written: the source has no rollback there. */
    | HistoryFailed

  /** The operating-system calls that fail during an operation. */
  datatype Faults = Faults(write: bool, rename: bool, registry: bool, history: bool)

  const METADATA := ".archive.yaml"
  const HISTORY := ".execraft-archive-history"
  const VERSION := 1

  // ----- Places -----

  const PROJECTS: Path := ["projects"]
  const ARCHIVE: Path := ["projects", ".archive"]
  const LOCK: Path := ["projects", ".archive", ".catalog.lock"]

  function ActiveProject(p: string): Path { ["projects", p] }
  function ArchivedProject(p: string): Path { ["projects", ".archive", "projects", p] }
  function ActiveTask(p: string, t: string): Path { ["projects", p, "tasks", t] }
  function ArchivedTask(p: string, t: string): Path { ["projects", ".archive", "tasks", p, t] }
  function TaskInArchivedProject(p: string, t: string): Path { ["projects", ".archive", "projects", p, "tasks", t] }

  predicate IdStart(c: char) { 'a' <= c <= 'z' || 'A' <= c <= 'Z' || c == '_' || c == '-' }
  predicate IdPart(c: char) { IdStart(c) || '0' <= c <= '9' }

  /** `text.replace("-", "_").isidentifier()` on ASCII text. */
  predicate SafeId(id: string) {
    id != "" && IdStart(id[0]) && forall c :: c in id ==> IdPart(c)
  }

  /** A safe id is one visible component of a path. */
  lemma SafeIdIsNotHidden(id: string)
    requires SafeId(id)
    ensures id != ".archive" && '/' !in id && '\\' !in id && '.' !in id && |id| > 0
  {
  }

  // ----- Inventory and verification -----

  /** Files that the inventory lists: not the metadata document, nothing in the history. */
  predicate Listed(d: Dossier, rel: Path) {
    rel in d && d[rel].File? && rel != [METADATA] && HISTORY !in rel
  }

  function InventoryOf(stamp: Content -> Stamp, d: Dossier): Inventory {
    map rel | rel in d && Listed(d, rel) :: stamp(d[rel].content)
  }

  datatype Verification = Verification(missing: set<Path>, unexpected: set<Path>, changed: set<Path>)

  function Verify(expected: Inventory, actual: Inventory): Verification {
    Verification(
      expected.Keys - actual.Keys,
      actual.Keys - expected.Keys,
      set rel | rel in expected && rel in actual && expected[rel] != actual[rel])
  }

  predicate Sound(v: Verification) {
    v.missing == {} && v.unexpected == {} && v.changed == {}
  }

  /** Verification succeeds exactly when the inventories are the same. */
  lemma VerifyExactly(expected: Inventory, actual: Inventory)
    ensures Sound(Verify(expected, actual)) <==> expected == actual
  {
  }

  /** Every regular file at any depth is covered, but for the metadata document at the top and
      what is below a directory of the history's name. */
  predicate Covered(d: Dossier, rel: Path) {
    rel in d && d[rel].File? && rel != [".archive.yaml"] && ".execraft-archive-history" !in rel
  }

  /** The inventory has exactly the covered files, each with the stamp of its content. */
  lemma InventoryExactly(stamp: Content -> Stamp, d: Dossier, rel: Path)
    ensures rel in InventoryOf(stamp, d) <==> Covered(d, rel)
    ensures Covered(d, rel) ==> InventoryOf(stamp, d)[rel] == stamp(d[rel].content)
  {
  }

  ghost predicate Injective(stamp: Content -> Stamp) {
    forall a, b :: stamp(a) == stamp(b) ==> a == b
  }

  /** With a collision-free digest: exactly when the covered files are the same. */
  lemma VerifyDetects(stamp: Content -> Stamp, before: Dossier, after: Dossier)
    requires Injective(stamp)
    ensures Sound(Verify(InventoryOf(stamp, before), InventoryOf(stamp, after)))
       <==> forall rel :: (Covered(before, rel) <==> Covered(after, rel))
                       && (Covered(before, rel) ==> before[rel] == after[rel])
  {
    hide InventoryOf, Covered;
    var expected, actual := InventoryOf(stamp, before), InventoryOf(stamp, after);
    VerifyExactly(expected, actual);
    forall rel
      ensures rel in expected <==> Covered(before, rel)
      ensures rel in actual <==> Covered(after, rel)
      ensures Covered(before, rel) ==> rel in before && before[rel].File? && expected[rel] == stamp(before[rel].content)
      ensures Covered(after, rel) ==> rel in after && after[rel].File? && actual[rel] == stamp(after[rel].content)
    {
      CoveredIsFile(before, rel);
      CoveredIsFile(after, rel);
      InventoryExactly(stamp, before, rel);
      InventoryExactly(stamp, after, rel);
    }
  }

  lemma CoveredIsFile(d: Dossier, rel: Path)
    ensures Covered(d, rel) ==> rel in d && d[rel].File?
  {
  }

  // ----- The effects of the operations -----

  function Locked(t: Dossier): Dossier {
    var made := MakeDirs(t, ARCHIVE);
    if LOCK in made then made else made[LOCK := File(Raw(""))]
  }

  /** `_move_into_archive`, when nothing fails. */
  function Shelved(t: Dossier, source: Path, target: Path, m: Metadata): Dossier
    requires target != []
  {
    Move(MakeDirs(t, Parent(target))[source + [METADATA] := File(Archived(m))], source, target)
  }

  function RecordName(m: Metadata): string {
    m.archiveId + ".yaml"
  }

  /** `_reactivate`, when nothing fails. */
  function Unshelved(t: Dossier, source: Path, destination: Path, m: Metadata): Dossier
    requires destination != []
  {
    var moved := Move(MakeDirs(t, Parent(destination)), source, destination);
    moved[destination + [HISTORY] := Dir][destination + [HISTORY, RecordName(m)] := File(Restored(m))]
      - {destination + [METADATA]}
  }

  /** What one archive-and-reactivate cycle does to a dossier: one more history record. */
  function Recorded(d: Dossier, m: Metadata): Dossier {
    d[[HISTORY] := Dir][[HISTORY, RecordName(m)] := File(Restored(m))]
  }

  /** Nothing that was there has changed; what is new is empty directories and the lock file. */
  ghost predicate Scaffolded(before: Dossier, after: Dossier) {
    && (forall path :: path in before ==> path in after && after[path] == before[path])
    && (forall path :: path in after && path !in before ==> after[path].Dir? || path == LOCK)
  }

  // ----- Round trip -----

  /** Two places a directory can be moved between without disturbing either path. */
  predicate Separate(source: Path, target: Path) {
    source != [] && target != [] && Apart(source, target)
  }

  lemma SameBelow(root: Path, a: Path, b: Path)
    ensures root + a == root + b <==> a == b
  {
    assert (root + a)[|root|..] == a && (root + b)[|root|..] == b;
  }

  lemma LongerPrefix(a: Path, rel: Path, path: Path)
    ensures a + rel <= path ==> Within(path, a)
  {
  }

  /** The parents of one place do not lie in the other. */
  lemma ParentsOutside(source: Path, target: Path, rel: Path)
    requires Separate(source, target)
    ensures !(source + rel <= Parent(target)) && !(target + rel <= Parent(target))
    ensures !Within(Parent(target), source)
  {
  }

  lemma ReadyAt(t: Dossier, source: Path, target: Path, node: Node<Content>, rel: Path)
    requires Separate(source, target) && Free(t, target)
    ensures var ready := MakeDirs(t, Parent(target))[source + [METADATA] := node];
      && Free(ready, target)
      && (source + rel in ready <==> source + rel in t || rel == [METADATA])
      && (source + rel in ready ==> ready[source + rel] == if rel == [METADATA] then node else t[source + rel])
  {
    ParentsOutside(source, target, rel);
    ApartBelow(source, target, [METADATA]);
    SameBelow(source, rel, [METADATA]);
    forall path | path <= Parent(target)
      ensures !Within(path, target)
    {
    }
  }

  /** Where the files of an archived dossier are. */
  lemma ShelvedAt(t: Dossier, source: Path, target: Path, m: Metadata, rel: Path)
    requires Separate(source, target) && Free(t, target)
    ensures var after := Shelved(t, source, target, m);
      && (target + rel in after <==> source + rel in t || rel == [METADATA])
      && (target + rel in after ==>
          after[target + rel] == if rel == [METADATA] then File(Archived(m)) else t[source + rel])
      && source + rel !in after
  {
    hide Move, MakeDirs, Free, Within;
    ReadyAt(t, source, target, File(Archived(m)), rel);
    Moved(MakeDirs(t, Parent(target))[source + [METADATA] := File(Archived(m))], source, target, rel);
  }

  lemma ParentsLeaveFree(t: Dossier, target: Path)
    requires target != [] && Free(t, target)
    ensures Free(MakeDirs(t, Parent(target)), target)
  {
  }

  lemma UnshelvedAt(t: Dossier, source: Path, destination: Path, m: Metadata, rel: Path)
    requires Separate(source, destination) && Free(t, destination)
    ensures var after := Unshelved(t, source, destination, m);
      && (destination + rel in after <==>
          (source + rel in t && rel != [METADATA]) || rel == [HISTORY] || rel == [HISTORY, RecordName(m)])
      && (destination + rel in after ==>
          after[destination + rel] == if rel == [HISTORY, RecordName(m)] then File(Restored(m))
                                      else if rel == [HISTORY] then Dir else t[source + rel])
      && source + rel !in after
  {
    hide Free, Move, MakeDirs, RecordName;
    var made := MakeDirs(t, Parent(destination));
    ParentsOutside(source, destination, rel);
    ParentsLeaveFree(t, destination);
    Moved(made, source, destination, rel);
    SameBelow(destination, rel, [METADATA]);
    SameBelow(destination, rel, [HISTORY]);
    SameBelow(destination, rel, [HISTORY, RecordName(m)]);
    ApartBelow(source, destination, rel);
  }

  lemma UnshelvedElsewhere(t: Dossier, source: Path, destination: Path, m: Metadata, path: Path)
    requires Separate(source, destination) && Free(t, destination)
    requires !Within(path, source) && !Within(path, destination)
    ensures var after := Unshelved(t, source, destination, m);
      && (path in after <==> path in t || path <= Parent(destination))
      && (path in after ==> after[path] == if path in t then t[path] else Dir)
  {
    MoveAt(MakeDirs(t, Parent(destination)), source, destination, path);
  }

  lemma ShelvedVacates(t: Dossier, source: Path, target: Path, m: Metadata)
    requires Separate(source, target) && Free(t, target)
    ensures Free(Shelved(t, source, target, m), source)
  {
  }

  lemma UnshelvedVacates(t: Dossier, source: Path, destination: Path, m: Metadata)
    requires Separate(source, destination) && Free(t, destination)
    ensures Free(Unshelved(t, source, destination, m), source)
  {
  }

  /** Outside the two places nothing changes, but for the parents of the target. */
  ghost predicate Elsewhere(t: Dossier, after: Dossier, source: Path, target: Path)
    requires target != []
  {
    forall path :: !Within(path, source) && !Within(path, target) ==>
      && (path in after <==> path in t || path <= Parent(target))
      && (path in after ==> after[path] == if path in t then t[path] else Dir)
  }

  /** `_move_into_archive` moves the dossier as it is and adds the metadata document. */
  ghost predicate ShelvedTo(t: Dossier, after: Dossier, source: Path, target: Path, m: Metadata)
    requires target != []
  {
    && Subtree(after, target) == Subtree(t, source)[[METADATA] := File(Archived(m))]
    && Free(after, source)
    && Elsewhere(t, after, source, target)
  }

  /** `_reactivate` moves it back, trading the metadata document for a history record. */
  ghost predicate UnshelvedTo(t: Dossier, after: Dossier, source: Path, destination: Path, m: Metadata)
    requires destination != []
  {
    && Subtree(after, destination) == Recorded(Subtree(t, source) - {[METADATA]}, m)
    && Free(after, source)
    && Elsewhere(t, after, source, destination)
  }

  lemma ShelvedSubtree(t: Dossier, source: Path, target: Path, m: Metadata)
    requires Separate(source, target) && Free(t, target)
    ensures Subtree(Shelved(t, source, target, m), target) == Subtree(t, source)[[METADATA] := File(Archived(m))]
  {
    var after := Shelved(t, source, target, m);
    var expected := Subtree(t, source)[[METADATA] := File(Archived(m))];
    forall rel
      ensures rel in expected <==> target + rel in after
      ensures rel in expected ==> expected[rel] == after[target + rel]
    {
      ShelvedAt(t, source, target, m, rel);
      SubtreeAt(t, source, rel);
    }
    SubtreeIs(after, target, expected);
  }

  lemma ShelvedLeavesElsewhere(t: Dossier, source: Path, target: Path, m: Metadata)
    requires Separate(source, target) && Free(t, target)
    ensures Elsewhere(t, Shelved(t, source, target, m), source, target)
  {
  }

  lemma ShelvedEffect(t: Dossier, source: Path, target: Path, m: Metadata)
    requires Separate(source, target) && Free(t, target)
    ensures ShelvedTo(t, Shelved(t, source, target, m), source, target, m)
  {
    ShelvedSubtree(t, source, target, m);
    ShelvedVacates(t, source, target, m);
    ShelvedLeavesElsewhere(t, source, target, m);
  }

  lemma RecordedAt(d: Dossier, m: Metadata, rel: Path)
    ensures var recorded := Recorded(d - {[METADATA]}, m);
      && (rel in recorded <==> (rel in d && rel != [METADATA]) || rel == [HISTORY] || rel == [HISTORY, RecordName(m)])
      && (rel in recorded ==>
          recorded[rel] == if rel == [HISTORY, RecordName(m)] then File(Restored(m))
                           else if rel == [HISTORY] then Dir else d[rel])
  {
  }

  lemma UnshelvedSubtreeAt(t: Dossier, source: Path, destination: Path, m: Metadata, rel: Path)
    requires Separate(source, destination) && Free(t, destination)
    ensures rel in Recorded(Subtree(t, source) - {[METADATA]}, m) <==> destination + rel in Unshelved(t, source, destination, m)
    ensures rel in Recorded(Subtree(t, source) - {[METADATA]}, m) ==>
      Recorded(Subtree(t, source) - {[METADATA]}, m)[rel] == Unshelved(t, source, destination, m)[destination + rel]
  {
    RecordedAt(Subtree(t, source), m, rel);
    UnshelvedAt(t, source, destination, m, rel);
    SubtreeAt(t, source, rel);
  }

  lemma UnshelvedSubtree(t: Dossier, source: Path, destination: Path, m: Metadata)
    requires Separate(source, destination) && Free(t, destination)
    ensures Subtree(Unshelved(t, source, destination, m), destination) == Recorded(Subtree(t, source) - {[METADATA]}, m)
  {
    forall rel {
      UnshelvedSubtreeAt(t, source, destination, m, rel);
    }
    SubtreeIs(Unshelved(t, source, destination, m), destination, Recorded(Subtree(t, source) - {[METADATA]}, m));
  }

  lemma UnshelvedLeavesElsewhere(t: Dossier, source: Path, destination: Path, m: Metadata)
    requires Separate(source, destination) && Free(t, destination)
    ensures Elsewhere(t, Unshelved(t, source, destination, m), source, destination)
  {
    forall path | !Within(path, source) && !Within(path, destination) {
      UnshelvedElsewhere(t, source, destination, m, path);
    }
  }

  lemma UnshelvedEffect(t: Dossier, source: Path, destination: Path, m: Metadata)
    requires Separate(source, destination) && Free(t, destination)
    ensures UnshelvedTo(t, Unshelved(t, source, destination, m), source, destination, m)
  {
    UnshelvedSubtree(t, source, destination, m);
    UnshelvedVacates(t, source, destination, m);
    UnshelvedLeavesElsewhere(t, source, destination, m);
  }

  lemma DocumentTraded(d: Dossier, m: Metadata)
    requires [METADATA] !in d
    ensures d[[METADATA] := File(Archived(m))] - {[METADATA]} == d
  {
  }

  /** Archiving and reactivating an untouched dossier restores it, with one history record
      more, and leaves everything else alone. */
  lemma RoundTrip(t: Dossier, shelved: Dossier, after: Dossier, place: Path, shelf: Path, m: Metadata, n: Metadata)
    requires Separate(place, shelf) && Free(t, shelf) && place + [METADATA] !in t
    requires ShelvedTo(t, shelved, place, shelf, m) && UnshelvedTo(shelved, after, shelf, place, n)
    ensures Subtree(after, place) == Recorded(Subtree(t, place), n) && Free(after, shelf)
  {
    SubtreeAt(t, place, [METADATA]);
    DocumentTraded(Subtree(t, place), m);
  }

  lemma RoundTripElsewhere(t: Dossier, shelved: Dossier, after: Dossier, place: Path, shelf: Path, path: Path)
    requires Separate(place, shelf) && !Within(path, place) && !Within(path, shelf)
    requires Elsewhere(t, shelved, place, shelf) && Elsewhere(shelved, after, shelf, place)
    ensures path in after <==> path in t || path <= Parent(shelf) || path <= Parent(place)
    ensures path in after ==> after[path] == if path in t then t[path] else Dir
  {
  }

  // ----- Any number of cycles -----

  function RecordedAll(d: Dossier, records: seq<Metadata>): Dossier {
    if records == [] then d else Recorded(RecordedAll(d, Text.Init(records)), Text.Last(records))
  }

  lemma RecordingKeepsInventory(stamp: Content -> Stamp, d: Dossier, m: Metadata)
    ensures InventoryOf(stamp, Recorded(d, m)) == InventoryOf(stamp, d)
  {
  }

  /** Over any number of cycles every file outside the history stays as it was, and so
      does the inventory. */
  lemma {:induction false} ManyCyclesKeepFiles(stamp: Content -> Stamp, d: Dossier, records: seq<Metadata>)
    ensures var after := RecordedAll(d, records);
      && InventoryOf(stamp, after) == InventoryOf(stamp, d)
      && forall rel :: HISTORY !in rel ==> (rel in after <==> rel in d) && (rel in d ==> after[rel] == d[rel])
  {
    if records != [] {
      ManyCyclesKeepFiles(stamp, d, Text.Init(records));
      RecordingKeepsInventory(stamp, RecordedAll(d, Text.Init(records)), Text.Last(records));
      assert HISTORY in [HISTORY] && HISTORY in [HISTORY, RecordName(Text.Last(records))];
    }
  }

  ghost predicate DistinctIds(records: seq<Metadata>) {
    forall i, j :: 0 <= i < j < |records| ==> records[i].archiveId != records[j].archiveId
  }

  /** With distinct archive ids every cycle's record is still there. */
  lemma {:induction false} ManyCyclesKeepRecords(d: Dossier, records: seq<Metadata>, i: nat)
    requires DistinctIds(records) && i < |records|
    ensures var path := [HISTORY, RecordName(records[i])];
      path in RecordedAll(d, records) && RecordedAll(d, records)[path] == File(Restored(records[i]))
  {
    var earlier, last := Text.Init(records), Text.Last(records);
    if i < |earlier| {
      ManyCyclesKeepRecords(d, earlier, i);
      assert records[i].archiveId != records[|records| - 1].archiveId;
      DifferentNames(records[i].archiveId, last.archiveId);
      assert [HISTORY, RecordName(records[i])][1] != [HISTORY, RecordName(last)][1];
    }
  }

  lemma DifferentNames(a: string, b: string)
    requires a != b
    ensures a + ".yaml" != b + ".yaml"
  {
    if |a| == |b| {
      assert (a + ".yaml")[..|a|] == a && (b + ".yaml")[..|b|] == b;
    }
  }
}
