/** Cycles of archiving and reactivating (src/execraft/catalog_archive.py): what one leaves for
    the next, and what any number of them comes to. */
module CatalogCycles {
  import opened Json
  import opened FileTree
  import opened ArchiveEffects
  import opened CatalogPlaces
  import opened CatalogGuards
  import Text

  // ----- A task -----

  lemma StripSafe(id: string)
    requires SafeId(id)
    ensures Text.Strip(id) == id
  {
    assert IdPart(id[0]) && IdPart(id[|id| - 1]);
  }

  lemma LockedTwice(t: Dossier, after: Dossier)
    requires !Blocked(t, ARCHIVE) && !IsDir(t, LOCK)
    requires forall path :: path <= ARCHIVE || path == LOCK ==> path in after && after[path] == Locked(t)[path]
    ensures Locked(after) == after && !Blocked(after, ARCHIVE) && !IsDir(after, LOCK)
  {
  }

  lemma DirsNotBlocked(t: Dossier, path: Path)
    requires WellFormed(t) && IsDir(t, path)
    ensures !Blocked(t, path)
  {
    forall k | 0 <= k <= |path|
      ensures IsDir(t, path[..k])
    {
      PrefixPresent(t, path, k);
      assert path[..|path|] == path;
    }
  }

  lemma ShelvedDocuments(t: Dossier, after: Dossier, source: Path, target: Path, m: Metadata)
    requires target != [] && ShelvedTo(t, after, source, target, m) && IsDir(t, source)
    ensures IsDir(after, target)
    ensures IsFile(after, target + [METADATA]) && after[target + [METADATA]] == File(Archived(m))
    ensures Recordable(after, target, m) <==> Recordable(t, source, m)
  {
    hide Elsewhere, Free, Subtree;
    assert source + [] == source && target + [] == target;
    assert [HISTORY] != [METADATA] by {
      assert [HISTORY][0] != [METADATA][0];
    }
    forall rel: Path
      ensures rel in Subtree(after, target) <==> target + rel in after
      ensures rel in Subtree(after, target) ==> Subtree(after, target)[rel] == after[target + rel]
      ensures rel in Subtree(t, source) <==> source + rel in t
      ensures rel in Subtree(t, source) ==> Subtree(t, source)[rel] == t[source + rel]
    {
      SubtreeAt(t, source, rel);
      SubtreeAt(after, target, rel);
    }
  }

  /** Moving a task leaves every shorter path alone. */
  lemma ShortPathsStay(t: Dossier, after: Dossier, p: string, k: string, path: Path)
    requires Elsewhere(t, after, ActiveTask(p, k), ArchivedTask(p, k))
    requires path in t && |path| < 4
    ensures path in after && after[path] == t[path]
  {
  }

  lemma LockReaches(t: Dossier, after: Dossier, p: string, k: string)
    requires !Blocked(t, ARCHIVE)
    requires Elsewhere(Locked(t), after, ActiveTask(p, k), ArchivedTask(p, k))
    ensures forall path :: path <= ARCHIVE || path == LOCK ==> path in after && after[path] == Locked(t)[path]
  {
    LockScaffolds(t);
    forall path | path <= ARCHIVE || path == LOCK
      ensures path in after && after[path] == Locked(t)[path]
    {
      ShortPathsStay(Locked(t), after, p, k, path);
    }
  }

  lemma DescriptorStays(t: Dossier, after: Dossier, p: string, k: string)
    requires SafeId(p) && Elsewhere(Locked(t), after, ActiveTask(p, k), ArchivedTask(p, k))
    ensures IsFile(after, ActiveProject(p) + ["project.yaml"]) <==> IsFile(t, ActiveProject(p) + ["project.yaml"])
  {
    var path := ActiveProject(p) + ["project.yaml"];
    SafeIdIsNotHidden(p);
    LockScaffolds(t);
    assert path[1] == p && ARCHIVE[1] == ".archive" && LOCK[1] == ".archive" && Parent(ArchivedTask(p, k))[1] == ".archive";
    assert !(path <= Parent(ArchivedTask(p, k))) && !(path <= ARCHIVE) && path != LOCK;
  }

  /** Archiving a task leaves the lock and the way back in place. */
  lemma ShelvedLeavesHome(t: Dossier, after: Dossier, p: string, k: string)
    requires WellFormed(after) && WellFormed(Locked(t)) && SafeId(p) && ActiveTask(p, k) in Locked(t)
    requires !Blocked(t, ARCHIVE) && !IsDir(t, LOCK)
    requires Elsewhere(Locked(t), after, ActiveTask(p, k), ArchivedTask(p, k)) && Free(after, ActiveTask(p, k))
    ensures Locked(after) == after && !Blocked(after, ARCHIVE) && !IsDir(after, LOCK)
    ensures IsFile(after, ActiveProject(p) + ["project.yaml"]) <==> IsFile(t, ActiveProject(p) + ["project.yaml"])
    ensures !Blocked(after, Parent(ActiveTask(p, k))) && ActiveTask(p, k) !in after
  {
    hide Elsewhere, Locked, Blocked, MakeDirs;
    var place := ActiveTask(p, k);
    LockReaches(t, after, p, k);
    LockedTwice(t, after);
    DescriptorStays(t, after, p, k);
    PrefixPresent(Locked(t), place, 3);
    assert place[..3] == Parent(place);
    ShortPathsStay(Locked(t), after, p, k, Parent(place));
    DirsNotBlocked(after, Parent(place));
    assert Within(place, place);
  }

  /** The archived task carries metadata that identify it and an inventory that verifies. */
  lemma ShelvedLoads(stamp: Content -> Stamp, t: Dossier, after: Dossier, p: string, k: string, id: string)
    requires SafeId(p) && SafeId(k) && IsDir(t, ActiveTask(p, k))
    requires
      var m := TaskMetadata(stamp, t, p, k, id);
      ShelvedTo(t, after, ActiveTask(p, k), ArchivedTask(p, k), m)
    ensures
      var m, shelf := TaskMetadata(stamp, t, p, k, id), ArchivedTask(p, k);
      && IsDir(after, shelf)
      && LoadMetadata(after, shelf, Task) == Some(m)
      && m.files == InventoryOf(stamp, Subtree(after, shelf))
      && (Recordable(after, shelf, m) <==> Recordable(t, ActiveTask(p, k), m))
  {
    hide Elsewhere, Subtree, Recordable, InventoryOf, SafeId;
    var m := TaskMetadata(stamp, t, p, k, id);
    ShelvedDocuments(t, after, ActiveTask(p, k), ArchivedTask(p, k), m);
    UntouchedVerifies(stamp, Subtree(t, ActiveTask(p, k)), m);
    StripSafe(p);
    StripSafe(k);
  }

  /** A task that has just been archived can be reactivated exactly when a history record can
      be written into it; otherwise the reactivation ends in the history window. */
  lemma ShelvedIsRestorable(stamp: Content -> Stamp, t: Dossier, after: Dossier, p: string, k: string, id: string)
    requires WellFormed(after) && WellFormed(Locked(t)) && SafeId(p) && SafeId(k)
    requires !Blocked(t, ARCHIVE) && !IsDir(t, LOCK) && IsDir(Locked(t), ActiveTask(p, k))
    requires ShelvedTo(Locked(t), after, ActiveTask(p, k), ArchivedTask(p, k), TaskMetadata(stamp, Locked(t), p, k, id))
    ensures Locked(after) == after && !Blocked(after, ARCHIVE) && !IsDir(after, LOCK)
    ensures IsFile(after, ActiveProject(p) + ["project.yaml"]) <==> IsFile(t, ActiveProject(p) + ["project.yaml"])
    ensures var m := TaskMetadata(stamp, Locked(t), p, k, id);
      && LoadMetadata(after, ArchivedTask(p, k), Task) == Some(m)
      && (Restorable(stamp, after, ArchivedTask(p, k), ActiveTask(p, k), Task, CALM)
          <==> Recordable(Locked(t), ActiveTask(p, k), m))
      && (Strands(stamp, after, ArchivedTask(p, k), ActiveTask(p, k), Task, CALM)
          <==> !Recordable(Locked(t), ActiveTask(p, k), m))
  {
    hide Elsewhere, Subtree, Locked, Blocked, InventoryOf, MakeDirs, LoadMetadata, Recordable, WellFormed, SafeId, Free;
    ShelvedLoads(stamp, Locked(t), after, p, k, id);
    ShelvedLeavesHome(t, after, p, k);
  }

  // ----- The same for a whole project -----

  lemma LockReachesProject(t: Dossier, after: Dossier, p: string)
    requires !Blocked(t, ARCHIVE) && SafeId(p)
    requires Elsewhere(Locked(t), after, ActiveProject(p), ArchivedProject(p))
    ensures forall path :: path <= ARCHIVE || path == LOCK ==> path in after && after[path] == Locked(t)[path]
  {
    LockScaffolds(t);
    SafeIdIsNotHidden(p);
    assert ActiveProject(p)[1] == p && ArchivedProject(p)[2] == "projects" && LOCK[1] == ".archive" && LOCK[2] == ".catalog.lock";
    forall path | path <= ARCHIVE || path == LOCK
      ensures path in after && after[path] == Locked(t)[path]
    {
      assert !Within(path, ActiveProject(p)) && !Within(path, ArchivedProject(p));
    }
  }

  lemma ProjectLeavesHome(t: Dossier, after: Dossier, p: string)
    requires WellFormed(after) && WellFormed(Locked(t)) && SafeId(p) && ActiveProject(p) in Locked(t)
    requires !Blocked(t, ARCHIVE) && !IsDir(t, LOCK)
    requires Elsewhere(Locked(t), after, ActiveProject(p), ArchivedProject(p)) && Free(after, ActiveProject(p))
    ensures Locked(after) == after && !Blocked(after, ARCHIVE) && !IsDir(after, LOCK)
    ensures !Blocked(after, Parent(ActiveProject(p))) && ActiveProject(p) !in after
  {
    hide Elsewhere, Locked, Blocked, MakeDirs;
    LockReachesProject(t, after, p);
    LockedTwice(t, after);
    var place := ActiveProject(p);
    PrefixPresent(Locked(t), place, 1);
    assert place[..1] == Parent(place) == PROJECTS && PROJECTS <= ARCHIVE;
    DirsNotBlocked(after, PROJECTS);
    assert Within(place, place);
  }

  lemma ProjectLoads(
    stamp: Content -> Stamp, t: Dossier, after: Dossier, registrations: map<string, string>, p: string, id: string)
    requires SafeId(p) && IsDir(t, ActiveProject(p))
    requires
      var m := ProjectMetadata(stamp, t, registrations, p, id);
      ShelvedTo(t, after, ActiveProject(p), ArchivedProject(p), m)
    ensures
      var m, shelf := ProjectMetadata(stamp, t, registrations, p, id), ArchivedProject(p);
      && IsDir(after, shelf)
      && LoadMetadata(after, shelf, Project) == Some(m)
      && m.files == InventoryOf(stamp, Subtree(after, shelf))
      && (Recordable(after, shelf, m) <==> Recordable(t, ActiveProject(p), m))
  {
    hide Elsewhere, Subtree, Recordable, InventoryOf, SafeId;
    var m := ProjectMetadata(stamp, t, registrations, p, id);
    ShelvedDocuments(t, after, ActiveProject(p), ArchivedProject(p), m);
    UntouchedVerifies(stamp, Subtree(t, ActiveProject(p)), m);
    StripSafe(p);
  }

  /** The same of a project. */
  lemma ProjectIsRestorable(
    stamp: Content -> Stamp, t: Dossier, after: Dossier, registrations: map<string, string>, p: string, id: string)
    requires WellFormed(after) && WellFormed(Locked(t)) && SafeId(p)
    requires !Blocked(t, ARCHIVE) && !IsDir(t, LOCK) && IsDir(Locked(t), ActiveProject(p))
    requires ShelvedTo(Locked(t), after, ActiveProject(p), ArchivedProject(p),
               ProjectMetadata(stamp, Locked(t), registrations, p, id))
    ensures Locked(after) == after && !Blocked(after, ARCHIVE) && !IsDir(after, LOCK)
    ensures var m := ProjectMetadata(stamp, Locked(t), registrations, p, id);
      && LoadMetadata(after, ArchivedProject(p), Project) == Some(m)
      && (Restorable(stamp, after, ArchivedProject(p), ActiveProject(p), Project, CALM)
          <==> Recordable(Locked(t), ActiveProject(p), m))
      && (Strands(stamp, after, ArchivedProject(p), ActiveProject(p), Project, CALM)
          <==> !Recordable(Locked(t), ActiveProject(p), m))
  {
    hide Elsewhere, Subtree, Locked, Blocked, InventoryOf, MakeDirs, LoadMetadata, Recordable, WellFormed, SafeId, Free;
    ProjectLoads(stamp, Locked(t), after, registrations, p, id);
    ProjectLeavesHome(t, after, p);
  }

  /** The registration of a project comes back as it was. */
  lemma RegistrationReturns(
    stamp: Content -> Stamp, t: Dossier, registrations: map<string, string>, p: string, id: string)
    requires SafeId(p)
    ensures Reregistered(registrations - {p}, Project, ProjectMetadata(stamp, t, registrations, p, id)) == registrations
  {
    StripSafe(p);
  }

  // ----- Any number of cycles -----

  /** A record of that name can be written into a dossier. */
  predicate RecordableIn(d: Dossier, name: string) {
    !IsFile(d, [HISTORY]) && !IsDir(d, [HISTORY, name])
  }

  lemma RecordableThere(t: Dossier, place: Path, m: Metadata)
    ensures Recordable(t, place, m) <==> RecordableIn(Subtree(t, place), RecordName(m))
  {
    hide Subtree;
    SubtreeAt(t, place, [HISTORY]);
    SubtreeAt(t, place, [HISTORY, RecordName(m)]);
  }

  /** Records do not get in each other's way. */
  lemma {:induction false} RecordedAllRecordable(d: Dossier, records: seq<Metadata>, name: string)
    requires forall i :: 0 <= i < |records| ==> RecordableIn(d, RecordName(records[i]))
    ensures RecordableIn(RecordedAll(d, records), name) <==> RecordableIn(d, name)
  {
    if records != [] {
      var earlier, last := Text.Init(records), Text.Last(records);
      RecordedAllRecordable(d, earlier, name);
      assert RecordableIn(d, RecordName(last));
      assert [HISTORY] != [HISTORY, name];
      if name == RecordName(last) {
        assert [HISTORY, name] == [HISTORY, RecordName(last)];
      } else {
        assert [HISTORY, name][1] != [HISTORY, RecordName(last)][1];
      }
    }
  }

  /** A task can be archived and reactivated: what `archive_task` demands, and an active project. */
  predicate TaskCyclable(manifestId: Content -> Option<string>, t: Dossier, p: string, k: string) {
    && SafeId(p) && SafeId(k) && !Blocked(t, ARCHIVE) && !IsDir(t, LOCK)
    && TaskArchivable(manifestId, Locked(t), p, k, CALM)
    && IsFile(t, ActiveProject(p) + ["project.yaml"])
  }

  predicate ProjectCyclable(t: Dossier, registered: bool, p: string) {
    && SafeId(p) && !Blocked(t, ARCHIVE) && !IsDir(t, LOCK)
    && ProjectArchivable(Locked(t), registered, p, CALM)
  }

  /** What stands in neither place after a cycle is what stood there, up to made parents. */
  lemma CycleElsewhere(t: Dossier, shelved: Dossier, after: Dossier, place: Path, shelf: Path, path: Path)
    requires Separate(place, shelf) && !Within(path, place) && !Within(path, shelf)
    requires Elsewhere(t, shelved, place, shelf) && Elsewhere(shelved, after, shelf, place)
    ensures path in t ==> path in after && after[path] == t[path]
    ensures path in after && path !in t ==> after[path] == Dir
  {
    RoundTripElsewhere(t, shelved, after, place, shelf, path);
  }

  lemma ParentsStayClear(t: Dossier, shelved: Dossier, after: Dossier, place: Path, shelf: Path)
    requires Separate(place, shelf) && !Blocked(t, Parent(shelf))
    requires Elsewhere(t, shelved, place, shelf) && Elsewhere(shelved, after, shelf, place)
    ensures !Blocked(after, Parent(shelf))
  {
    hide Elsewhere;
    forall n | 0 <= n <= |Parent(shelf)|
      ensures !IsFile(after, Parent(shelf)[..n])
    {
      var path := Parent(shelf)[..n];
      assert path <= shelf && !Within(path, shelf) && !Within(path, place);
      CycleElsewhere(t, shelved, after, place, shelf, path);
    }
  }

  /** After a cycle the dossier can be archived again, as far as the two places are concerned. */
  lemma StillShelvable(t: Dossier, shelved: Dossier, after: Dossier, place: Path, shelf: Path, m: Metadata)
    requires Separate(place, shelf) && Shelvable(t, place, shelf, CALM) && Free(t, shelf)
    requires ShelvedTo(t, shelved, place, shelf, m) && UnshelvedTo(shelved, after, shelf, place, m)
    ensures Shelvable(after, place, shelf, CALM) && shelf !in after
    ensures Subtree(after, place) == Recorded(Subtree(t, place), m)
  {
    hide Blocked, Elsewhere, Subtree, Recorded;
    ParentsStayClear(t, shelved, after, place, shelf);
    RoundTrip(t, shelved, after, place, shelf, m, m);
    SubtreeAt(t, place, [METADATA]);
    SubtreeAt(after, place, [METADATA]);
    NotRecorded(Subtree(t, place), m);
    ParentsOutside(place, shelf, [METADATA]);
    assert Within(shelf, shelf);
  }

  lemma NotRecorded(d: Dossier, m: Metadata)
    ensures [METADATA] in Recorded(d, m) <==> [METADATA] in d
  {
    assert [METADATA][0] != [HISTORY][0] && |[METADATA]| != |[HISTORY, RecordName(m)]|;
  }

  lemma RecordedEntry(d: Dossier, m: Metadata, rel: Path)
    requires HISTORY !in rel
    ensures rel in Recorded(d, m) <==> rel in d
    ensures rel in d ==> Recorded(d, m)[rel] == d[rel]
  {
    assert HISTORY in [HISTORY] && HISTORY in [HISTORY, RecordName(m)];
  }

  lemma CycleLeavesLock(t: Dossier, shelved: Dossier, after: Dossier, place: Path, shelf: Path)
    requires Separate(place, shelf) && !Blocked(t, ARCHIVE) && !IsDir(t, LOCK)
    requires !(place <= LOCK) && !(shelf <= LOCK)
    requires Elsewhere(Locked(t), shelved, place, shelf) && Elsewhere(shelved, after, shelf, place)
    ensures Locked(after) == after && !Blocked(after, ARCHIVE) && !IsDir(after, LOCK)
  {
    hide Elsewhere, Blocked;
    LockScaffolds(t);
    forall path | path <= ARCHIVE || path == LOCK
      ensures path in after && after[path] == Locked(t)[path]
    {
      assert ARCHIVE <= LOCK;
      CycleElsewhere(Locked(t), shelved, after, place, shelf, path);
    }
    LockedTwice(t, after);
  }

  /** A cycle leaves a task as ready for the next as it was. */
  lemma TaskCycleReady(
    manifestId: Content -> Option<string>, t: Dossier, shelved: Dossier, after: Dossier, p: string, k: string, m: Metadata)
    requires TaskCyclable(manifestId, t, p, k) && Unshelvable(Locked(t), p, k)
    requires ShelvedTo(Locked(t), shelved, ActiveTask(p, k), ArchivedTask(p, k), m)
    requires UnshelvedTo(shelved, after, ArchivedTask(p, k), ActiveTask(p, k), m)
    ensures TaskCyclable(manifestId, after, p, k) && Locked(after) == after
    ensures Subtree(after, ActiveTask(p, k)) == Recorded(Subtree(Locked(t), ActiveTask(p, k)), m)
  {
    hide Elsewhere, Subtree, Recorded, Blocked, Locked, SafeId, Free, MakeDirs, Shelvable;
    var place, shelf, descriptor := ActiveTask(p, k), ArchivedTask(p, k), ActiveProject(p) + ["project.yaml"];
    PlacesApart(p, k, p, k);
    assert |place| > |LOCK| && |shelf| > |LOCK|;
    CycleLeavesLock(t, shelved, after, place, shelf);
    StillShelvable(Locked(t), shelved, after, place, shelf, m);
    SubtreeStands(Locked(t), after, place, m, []);
    SubtreeStands(Locked(t), after, place, m, ["TASK.yaml"]);
    assert place + [] == place;
    LockKeepsFile(t, descriptor);
    assert |descriptor| < |place| && |descriptor| < |shelf|;
    CycleElsewhere(Locked(t), shelved, after, place, shelf, descriptor);
  }

  lemma SubtreeStands(t: Dossier, after: Dossier, place: Path, m: Metadata, rel: Path)
    requires Subtree(after, place) == Recorded(Subtree(t, place), m) && rel in {[], ["TASK.yaml"], ["project.yaml"]}
    ensures SameAt(t, place + rel, after, place + rel)
  {
    hide Subtree, Recorded;
    assert HISTORY != "TASK.yaml" && HISTORY != "project.yaml" by {
      assert HISTORY[0] == '.';
    }
    RecordedEntry(Subtree(t, place), m, rel);
    SubtreeAt(t, place, rel);
    SubtreeAt(after, place, rel);
  }

  lemma ProjectCycleReady(t: Dossier, shelved: Dossier, after: Dossier, registered: bool, p: string, m: Metadata)
    requires ProjectCyclable(t, registered, p) && Free(Locked(t), ArchivedProject(p))
    requires ShelvedTo(Locked(t), shelved, ActiveProject(p), ArchivedProject(p), m)
    requires UnshelvedTo(shelved, after, ArchivedProject(p), ActiveProject(p), m)
    ensures ProjectCyclable(after, registered, p) && Locked(after) == after
    ensures Subtree(after, ActiveProject(p)) == Recorded(Subtree(Locked(t), ActiveProject(p)), m)
  {
    hide Elsewhere, Subtree, Recorded, Blocked, Locked, SafeId, Free, MakeDirs, Shelvable;
    var place, shelf := ActiveProject(p), ArchivedProject(p);
    ProjectDirectoriesApart(p, p);
    CycleLeavesLock(t, shelved, after, place, shelf);
    StillShelvable(Locked(t), shelved, after, place, shelf, m);
    SubtreeStands(Locked(t), after, place, m, []);
    SubtreeStands(Locked(t), after, place, m, ["project.yaml"]);
    assert place + [] == place;
  }

  /** The metadata of the cycles of a task, and of a project, all with the first inventory. */
  function TaskRecord(stamp: Content -> Stamp, d: Dossier, p: string, k: string, id: string): Metadata {
    Metadata(VERSION, id, Task, k, p, InventoryOf(stamp, d), None)
  }

  function TaskRecords(stamp: Content -> Stamp, d: Dossier, p: string, k: string, ids: seq<string>): (r: seq<Metadata>)
    ensures |r| == |ids|
  {
    seq(|ids|, i requires 0 <= i < |ids| => TaskRecord(stamp, d, p, k, ids[i]))
  }

  function ProjectRecords(
    stamp: Content -> Stamp, d: Dossier, registrations: map<string, string>, p: string, ids: seq<string>): (r: seq<Metadata>)
    ensures |r| == |ids|
  {
    seq(|ids|, i requires 0 <= i < |ids| =>
      Metadata(VERSION, ids[i], Project, p, p, InventoryOf(stamp, d), if p in registrations then Some(registrations[p]) else None))
  }

  /** What any number of cycles comes to: every ordinary entry and the inventory are as they
      were, and with distinct archive ids every record is there. */
  ghost predicate CyclesKept(stamp: Content -> Stamp, before: Dossier, after: Dossier, records: seq<Metadata>) {
    && after == RecordedAll(before, records)
    && InventoryOf(stamp, after) == InventoryOf(stamp, before)
    && (forall rel :: HISTORY !in rel ==> (rel in after <==> rel in before) && (rel in before ==> after[rel] == before[rel]))
    && (DistinctIds(records) ==>
          forall i :: 0 <= i < |records| ==>
            var path := [HISTORY, RecordName(records[i])];
            path in after && after[path] == File(Restored(records[i])))
  }

  lemma CyclesKeep(stamp: Content -> Stamp, before: Dossier, records: seq<Metadata>)
    ensures CyclesKept(stamp, before, RecordedAll(before, records), records)
  {
    ManyCyclesKeepFiles(stamp, before, records);
    if DistinctIds(records) {
      forall i | 0 <= i < |records| {
        ManyCyclesKeepRecords(before, records, i);
      }
    }
  }

  lemma NoRecords(d: Dossier)
    ensures RecordedAll(d, []) == d
  {
  }

  /** The next cycle's metadata, whether its record can be written, and what it makes of the dossier. */
  lemma NextTaskRecord(
    stamp: Content -> Stamp, before: Dossier, t: Dossier, p: string, k: string, ids: seq<string>, n: nat)
    requires n < |ids| && forall i :: 0 <= i < n ==> RecordableIn(before, ids[i] + ".yaml")
    requires Subtree(t, ActiveTask(p, k)) == RecordedAll(before, TaskRecords(stamp, before, p, k, ids)[..n])
    ensures var records, m := TaskRecords(stamp, before, p, k, ids), TaskMetadata(stamp, t, p, k, ids[n]);
      && m == records[n]
      && (Recordable(t, ActiveTask(p, k), m) <==> RecordableIn(before, ids[n] + ".yaml"))
      && RecordedAll(before, records[..n + 1]) == Recorded(Subtree(t, ActiveTask(p, k)), m)
  {
    hide Subtree, Recorded, InventoryOf, RecordableIn, Recordable;
    var records := TaskRecords(stamp, before, p, k, ids);
    ManyCyclesKeepFiles(stamp, before, records[..n]);
    RecordableThere(t, ActiveTask(p, k), records[n]);
    RecordedAllRecordable(before, records[..n], RecordName(records[n]));
    assert Text.Init(records[..n + 1]) == records[..n] && Text.Last(records[..n + 1]) == records[n];
  }

  lemma NextProjectRecord(
    stamp: Content -> Stamp, before: Dossier, t: Dossier, registrations: map<string, string>, p: string, ids: seq<string>, n: nat)
    requires n < |ids| && forall i :: 0 <= i < n ==> RecordableIn(before, ids[i] + ".yaml")
    requires Subtree(t, ActiveProject(p)) == RecordedAll(before, ProjectRecords(stamp, before, registrations, p, ids)[..n])
    ensures
      var records, m := ProjectRecords(stamp, before, registrations, p, ids), ProjectMetadata(stamp, t, registrations, p, ids[n]);
      && m == records[n]
      && (Recordable(t, ActiveProject(p), m) <==> RecordableIn(before, ids[n] + ".yaml"))
      && RecordedAll(before, records[..n + 1]) == Recorded(Subtree(t, ActiveProject(p)), m)
  {
    hide Subtree, Recorded, InventoryOf, RecordableIn, Recordable;
    var records := ProjectRecords(stamp, before, registrations, p, ids);
    ManyCyclesKeepFiles(stamp, before, records[..n]);
    RecordableThere(t, ActiveProject(p), records[n]);
    RecordedAllRecordable(before, records[..n], RecordName(records[n]));
    assert Text.Init(records[..n + 1]) == records[..n] && Text.Last(records[..n + 1]) == records[n];
  }

  /** A project that holds a regular file under the name of its history directory. */
  function FileForHistory(): Dossier {
    map[
      [] := Dir,
      ["projects"] := Dir,
      ["projects", "p"] := Dir,
      ["projects", "p", "project.yaml"] := File(Raw("id: p")),
      ["projects", "p", HISTORY] := File(Raw(""))]
  }

  lemma FileForHistoryEntries(path: Path)
    requires path in FileForHistory()
    ensures |path| <= 3 && (|path| == 3 <==> FileForHistory()[path].File?)
    ensures |path| > 0 ==> path[0] == "projects"
    ensures |path| > 1 ==> path[1] == "p" != ".archive"
    ensures |path| > 2 ==> path[2] in {"project.yaml", HISTORY}
  {
    assert "p"[0] != ".archive"[0];
  }

  lemma FileForHistoryStands()
    ensures IsDir(FileForHistory(), []) && IsDir(FileForHistory(), PROJECTS) && IsDir(FileForHistory(), ActiveProject("p"))
    ensures IsFile(FileForHistory(), ActiveProject("p") + ["project.yaml"])
    ensures IsFile(FileForHistory(), ActiveProject("p") + [HISTORY])
  {
    assert ActiveProject("p") + ["project.yaml"] == ["projects", "p", "project.yaml"];
    assert ActiveProject("p") + [HISTORY] == ["projects", "p", HISTORY];
  }

  lemma FileForHistoryWellFormed()
    ensures WellFormed(FileForHistory())
  {
    hide FileForHistory;
    FileForHistoryStands();
    forall path | path in FileForHistory() && path != []
      ensures path[..|path| - 1] in FileForHistory() && FileForHistory()[path[..|path| - 1]].Dir?
    {
      FileForHistoryEntries(path);
      if |path| == 3 {
        assert path[..2] == ActiveProject("p");
      } else if |path| == 2 {
        assert path[..1] == PROJECTS;
      } else {
        assert path[..0] == [];
      }
    }
  }

  lemma LetterIsSafe()
    ensures SafeId("p")
  {
  }

  ghost predicate ArchiveEmpty(t: Dossier) {
    forall path: Path :: |path| > 1 && path[1] == ".archive" ==> path !in t
  }

  lemma NothingArchived()
    ensures ArchiveEmpty(FileForHistory()) && ActiveProject("p") + [METADATA] !in FileForHistory()
  {
    hide FileForHistory;
    forall path | path in FileForHistory()
      ensures |path| > 1 ==> path[1] != ".archive"
      ensures |path| > 2 ==> path[2] != METADATA
    {
      FileForHistoryEntries(path);
      assert METADATA[1] != "project.yaml"[1] && METADATA[1] != HISTORY[1];
    }
    assert (ActiveProject("p") + [METADATA])[2] == METADATA;
  }

  lemma NothingBlocksShelf(t: Dossier, p: string)
    requires SafeId(p) && IsDir(t, PROJECTS) && IsDir(t, [])
    requires ArchiveEmpty(t)
    ensures !Blocked(t, ARCHIVE) && LOCK !in t && !Blocked(Locked(t), Parent(ArchivedProject(p)))
    ensures ArchivedProject(p) !in Locked(t)
  {
    hide SafeId;
    LockScaffolds(t);
    var parents := Parent(ArchivedProject(p));
    assert parents == ["projects", ".archive", "projects"];
    forall k | 0 <= k <= 2
      ensures !IsFile(t, ARCHIVE[..k])
    {
      assert ARCHIVE[..0] == [] && ARCHIVE[..1] == PROJECTS;
    }
    forall k | 0 <= k <= 3
      ensures !IsFile(Locked(t), parents[..k])
    {
      assert parents[..0] == [] && parents[..1] == PROJECTS && parents[..2] == ARCHIVE;
      assert parents[..3][2] == "projects" && LOCK[2] == ".catalog.lock";
    }
    assert ArchivedProject(p)[1] == ".archive" && |ArchivedProject(p)| == 4;
  }

  lemma EmptyArchiveCyclable(t: Dossier, p: string)
    requires SafeId(p) && IsDir(t, PROJECTS) && IsDir(t, [])
    requires ArchiveEmpty(t)
    requires IsDir(t, ActiveProject(p)) && IsFile(t, ActiveProject(p) + ["project.yaml"])
    requires ActiveProject(p) + [METADATA] !in t
    ensures ProjectCyclable(t, false, p)
  {
    hide SafeId, Blocked, Locked, MakeDirs;
    var place := ActiveProject(p);
    NothingBlocksShelf(t, p);
    LockKeepsFile(t, place);
    LockKeepsFile(t, place + ["project.yaml"]);
    LockScaffolds(t);
    SafeIdIsNotHidden(p);
    var path := place + [METADATA];
    assert path[1] == p && ARCHIVE[1] == ".archive" && LOCK[1] == ".archive";
    assert Parent(ArchivedProject(p))[1] == ".archive";
    assert !(path <= ARCHIVE) && path != LOCK && !(path <= Parent(ArchivedProject(p)));
  }

  lemma FileInTheWay(t: Dossier, p: string, m: Metadata)
    requires IsFile(t, ActiveProject(p) + [HISTORY])
    ensures !Recordable(Locked(t), ActiveProject(p), m)
  {
    hide Locked;
    LockKeepsFile(t, ActiveProject(p) + [HISTORY]);
  }

  /** It can be archived, and no record can be written when it comes back: without any system
      call failing, its reactivation ends in the history window. */
  lemma HistoryFileStrands(m: Metadata)
    ensures WellFormed(FileForHistory()) && ProjectCyclable(FileForHistory(), false, "p")
    ensures !Recordable(Locked(FileForHistory()), ActiveProject("p"), m)
  {
    hide *;
    FileForHistoryStands();
    FileForHistoryWellFormed();
    LetterIsSafe();
    NothingArchived();
    EmptyArchiveCyclable(FileForHistory(), "p");
    FileInTheWay(FileForHistory(), "p", m);
  }
}
