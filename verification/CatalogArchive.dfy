/** The catalog archive's manager (src/execraft/catalog_archive.py): its operations on a
    file tree and on the host's project registrations, any of which may fail. */
module CatalogArchive {
  import opened Json
  import opened FileTree
  import opened ArchiveEffects
  import opened CatalogPlaces
  import opened CatalogGuards
  import opened CatalogCycles
  import Text

  datatype Operation =
    | ArchiveTaskOp(project: string, task: string, id: string, faults: Faults)
    | ArchiveProjectOp(project: string, id: string, faults: Faults)
    | ReactivateTaskOp(project: string, task: string, faults: Faults)
    | ReactivateProjectOp(project: string, faults: Faults)

  class CatalogArchiveManager {
    const stamp: Content -> Stamp
    /** The `id` of a TASK.yaml, None when it is not a mapping. */
    const manifestId: Content -> Option<string>

    var tree: Dossier
    var registrations: map<string, string>

    ghost predicate Valid()
      reads this
    {
      WellFormed(tree)
    }

    /** `_exclusive_lock`: the archive root and the lock file come into being. */
    method Lock() returns (ok: bool)
      requires Valid()
      modifies this`tree
      ensures Valid() && tree == if ok then Locked(old(tree)) else old(tree)
      ensures ok <==> !Blocked(old(tree), ARCHIVE) && !IsDir(old(tree), LOCK)
    {
      if Blocked(tree, ARCHIVE) || IsDir(tree, LOCK) {
        return false;
      }
      LockWellFormed(tree);
      tree := MakeDirs(tree, ARCHIVE);
      if LOCK !in tree {
        tree := tree[LOCK := File(Raw(""))];
      }
      return true;
    }

    /** `_move_into_archive`, under the lock. */
    method MoveIntoArchive(source: Path, target: Path, m: Metadata, faults: Faults) returns (error: Option<Error>)
      requires Valid() && Separate(source, target) && target != [] && IsDir(tree, source) && target !in tree
      modifies this`tree
      ensures Valid() && Free(old(tree), target)
      ensures error.Some? ==> tree == old(tree) || tree == MakeDirs(old(tree), Parent(target))
      ensures error == None ==> tree == Shelved(old(tree), source, target, m)
      ensures error == None <==> Shelvable(old(tree), source, target, faults)
      ensures error != Some(HistoryFailed)
    {
      hide WellFormed, Move, Free, Blocked, MakeDirs, Separate;
      AbsentIsFree(tree, target);
      if Blocked(tree, Parent(target)) {
        return Some(OsError);
      }
      MakeDirsWellFormed(tree, Parent(target));
      ghost var before := tree;
      tree := MakeDirs(tree, Parent(target));
      if source + [METADATA] in tree {
        return Some(ReservedName);
      }
      if faults.write {
        return Some(OsError);
      }
      ShelvedWellFormed(before, source, target, m);
      tree := tree[source + [METADATA] := File(Archived(m))];
      if faults.rename {
        tree := tree - {source + [METADATA]};
        assert tree == MakeDirs(before, Parent(target));
        return Some(OsError);
      }
      tree := Move(tree, source, target);
      return None;
    }

    /** `archive_task` */
    method ArchiveTask(projectId: string, taskId: string, archiveId: string, faults: Faults)
      returns (r: Result<Metadata, Error>)
      requires Valid()
      modifies this`tree
      ensures Valid()
      ensures var p, k := Text.Strip(projectId), Text.Strip(taskId);
        && (!SafeId(p) ==> r.Err? && tree == old(tree))
        && OutcomeOf(old(tree), tree, ActiveTask(p, k), ArchivedTask(p, k))
        && (r.Err? ==> Scaffolded(old(tree), tree) && r.error != HistoryFailed)
        && (r.Ok? ==>
             && SafeId(p) && SafeId(k) && !Blocked(old(tree), ARCHIVE) && !IsDir(old(tree), LOCK)
             && IsDir(Locked(old(tree)), ActiveTask(p, k))
             && r.value == TaskMetadata(stamp, Locked(old(tree)), p, k, archiveId)
             && Unshelvable(Locked(old(tree)), p, k)
             && ShelvedTo(Locked(old(tree)), tree, ActiveTask(p, k), ArchivedTask(p, k), r.value))
        && (r.Ok? <==>
             && SafeId(p) && SafeId(k) && !Blocked(old(tree), ARCHIVE) && !IsDir(old(tree), LOCK)
             && TaskArchivable(manifestId, Locked(old(tree)), p, k, faults))
    {
      hide Relocated, ShelvedTo, UnshelvedTo, Scaffolded, WellFormed, Locked, MakeDirs, InventoryOf, TaskArchivable;
      var p, k := Text.Strip(projectId), Text.Strip(taskId);
      FailureScaffolds(tree, ArchivedTask(p, k));
      if !SafeId(p) || !SafeId(k) {
        return Err(InvalidId);
      }
      var locked := Lock();
      if !locked {
        return Err(OsError);
      }
      r := ArchiveTaskLocked(p, k, archiveId, faults);
    }

    method ArchiveTaskLocked(p: string, k: string, archiveId: string, faults: Faults) returns (r: Result<Metadata, Error>)
      requires Valid() && SafeId(p)
      modifies this`tree
      ensures Valid()
      ensures r.Err? ==> tree == old(tree) || tree == MakeDirs(old(tree), Parent(ArchivedTask(p, k)))
      ensures r != Err(HistoryFailed)
      ensures r.Ok? <==> TaskArchivable(manifestId, old(tree), p, k, faults)
      ensures r.Ok? ==>
        && IsDir(old(tree), ActiveTask(p, k))
        && r.value == TaskMetadata(stamp, old(tree), p, k, archiveId)
        && Unshelvable(old(tree), p, k)
        && ShelvedTo(old(tree), tree, ActiveTask(p, k), ArchivedTask(p, k), r.value)
        && Relocated(old(tree), tree, ActiveTask(p, k), ArchivedTask(p, k))
    {
      hide WellFormed, Relocated, ShelvedTo, Shelved, MakeDirs, InventoryOf, Subtree, SafeId;
      assert Shelvable(tree, ActiveTask(p, k), ArchivedTask(p, k), faults) ==>
        ActiveTask(p, k) + [METADATA] !in tree;
      var source, target := ActiveTask(p, k), ArchivedTask(p, k);
      if !IsDir(tree, source) {
        return Err(NotFound);
      }
      if !IsFile(tree, source + ["TASK.yaml"]) {
        return Err(NoManifest);
      }
      if target in tree {
        return Err(AlreadyExists);
      }
      var id := manifestId(tree[source + ["TASK.yaml"]].content);
      if id.None? || (id.value != "" && id.value != k) {
        return Err(IdMismatch);
      }
      var m := TaskMetadata(stamp, tree, p, k, archiveId);
      PlacesApart(p, k, p, k);
      var error := MoveIntoArchive(source, target, m, faults);
      if error.Some? {
        return Err(error.value);
      }
      ShelvedEffect(old(tree), source, target, m);
      ShelvedRelocates(old(tree), tree, source, target, m);
      return Ok(m);
    }

    /** `archive_project`; a registration that cannot be removed brings the directory back. */
    method ArchiveProject(projectId: string, archiveId: string, faults: Faults) returns (r: Result<Metadata, Error>)
      requires Valid()
      modifies this
      ensures Valid()
      ensures var p := Text.Strip(projectId);
        && (!SafeId(p) ==> r.Err? && tree == old(tree))
        && OutcomeOf(old(tree), tree, ActiveProject(p), ArchivedProject(p))
        && (r.Err? ==> Scaffolded(old(tree), tree) && registrations == old(registrations) && r.error != HistoryFailed)
        && (r.Ok? ==>
             && r.value == ProjectMetadata(stamp, Locked(old(tree)), old(registrations), p, archiveId)
             && IsDir(Locked(old(tree)), ActiveProject(p))
             && Free(Locked(old(tree)), ArchivedProject(p)) && ActiveProject(p) + [METADATA] !in Locked(old(tree))
             && ShelvedTo(Locked(old(tree)), tree, ActiveProject(p), ArchivedProject(p), r.value)
             && registrations == old(registrations) - {p})
        && (r.Ok? <==>
             && SafeId(p) && !Blocked(old(tree), ARCHIVE) && !IsDir(old(tree), LOCK)
             && ProjectArchivable(Locked(old(tree)), p in old(registrations), p, faults))
    {
      hide Relocated, ShelvedTo, UnshelvedTo, Scaffolded, WellFormed, Locked, MakeDirs, InventoryOf;
      hide ProjectArchivable, ProjectMetadata;
      var p := Text.Strip(projectId);
      FailureScaffolds(tree, ArchivedProject(p));
      if !SafeId(p) {
        return Err(InvalidId);
      }
      var locked := Lock();
      if !locked {
        return Err(OsError);
      }
      r := ArchiveProjectLocked(p, archiveId, faults);
    }

    /** The moving part of `archive_project`: the rename and the registration. */
    method MoveProjectIn(source: Path, target: Path, m: Metadata, p: string, faults: Faults) returns (error: Option<Error>)
      requires Valid() && Separate(source, target) && target != [] && IsDir(tree, source) && target !in tree
      modifies this
      ensures Valid() && Free(old(tree), target)
      ensures error == None <==>
        Shelvable(old(tree), source, target, faults) && !(p in old(registrations) && faults.registry)
      ensures error.Some? ==>
        && error.value != HistoryFailed && registrations == old(registrations)
        && (tree == old(tree) || tree == MakeDirs(old(tree), Parent(target)))
      ensures error == None ==>
        tree == Shelved(old(tree), source, target, m) && registrations == old(registrations) - {p}
    {
      hide WellFormed, Free, MakeDirs, Move, Separate, Blocked;
      error := MoveIntoArchive(source, target, m, faults);
      if error == None && p in registrations {
        if faults.registry {
          ShelvingUndone(old(tree), source, target, m);
          RollbackWellFormed(old(tree), target);
          tree := Move(tree, target, source) - {source + [METADATA]};
          return Some(OsError);
        }
        registrations := registrations - {p};
      }
    }

    method ArchiveProjectLocked(p: string, archiveId: string, faults: Faults) returns (r: Result<Metadata, Error>)
      requires Valid() && SafeId(p)
      modifies this
      ensures Valid()
      ensures r.Err? ==> registrations == old(registrations) && r.error != HistoryFailed
      ensures r.Err? ==> tree == old(tree) || tree == MakeDirs(old(tree), Parent(ArchivedProject(p)))
      ensures r.Ok? <==> ProjectArchivable(old(tree), p in old(registrations), p, faults)
      ensures r.Ok? ==>
        && r.value == ProjectMetadata(stamp, old(tree), old(registrations), p, archiveId)
        && IsDir(old(tree), ActiveProject(p))
        && Free(old(tree), ArchivedProject(p)) && ActiveProject(p) + [METADATA] !in old(tree)
        && ShelvedTo(old(tree), tree, ActiveProject(p), ArchivedProject(p), r.value)
        && Relocated(old(tree), tree, ActiveProject(p), ArchivedProject(p))
        && registrations == old(registrations) - {p}
    {
      hide Relocated, ShelvedTo, WellFormed, InventoryOf, Shelved, Move, MakeDirs, Free, Subtree, Blocked, SafeId, Kept, Within;
      assert Shelvable(tree, ActiveProject(p), ArchivedProject(p), faults) ==> ActiveProject(p) + [METADATA] !in tree;
      var source, target := ActiveProject(p), ArchivedProject(p);
      if !IsDir(tree, source) || !IsFile(tree, source + ["project.yaml"]) {
        return Err(NotFound);
      }
      if target in tree {
        return Err(AlreadyExists);
      }
      var registration := if p in registrations then Some(registrations[p]) else None;
      var m := Metadata(VERSION, archiveId, Project, p, p, InventoryOf(stamp, Subtree(tree, source)), registration);
      assert m == ProjectMetadata(stamp, tree, registrations, p, archiveId);
      ProjectDirectoriesApart(p, p);
      var error := MoveProjectIn(source, target, m, p, faults);
      if error.Some? {
        return Err(error.value);
      }
      ShelvedEffect(old(tree), source, target, m);
      ShelvedRelocates(old(tree), tree, source, target, m);
      return Ok(m);
    }

    /** `_reactivate`, under the lock. */
    method Reactivate(source: Path, destination: Path, kind: Kind, faults: Faults) returns (r: Result<Metadata, Error>)
      requires Valid() && Separate(source, destination)
      modifies this
      ensures Valid()
      ensures r.Err? && r.error != HistoryFailed ==>
        && registrations == old(registrations)
        && (tree == old(tree) || tree == MakeDirs(old(tree), Parent(destination)))
      ensures r == Err(HistoryFailed) ==> Relocated(old(tree), tree, source, destination)
      ensures r.Ok? ==>
        && LoadMetadata(old(tree), source, kind) == Some(r.value)
        && r.value.files == InventoryOf(stamp, Subtree(old(tree), source))
        && Intact(stamp, old(tree), source, r.value.files)
        && UnshelvedTo(old(tree), tree, source, destination, r.value)
        && Relocated(old(tree), tree, source, destination)
      ensures r.Ok? || r == Err(HistoryFailed) ==>
        && LoadMetadata(old(tree), source, kind).Some?
        && registrations == Reregistered(old(registrations), kind, LoadMetadata(old(tree), source, kind).value)
      ensures r.Ok? <==> Restorable(stamp, old(tree), source, destination, kind, faults)
      ensures r == Err(HistoryFailed) <==> Strands(stamp, old(tree), source, destination, kind, faults)
      ensures r == Err(HistoryFailed) ==> Stranded(old(tree), tree, source, destination)
    {
      hide Intact;
      VerifiedIsIntact(stamp, tree, source);
      if !IsDir(tree, source) {
        return Err(NotFound);
      }
      if destination in tree {
        return Err(AlreadyExists);
      }
      var loaded := LoadMetadata(tree, source, kind);
      if loaded.None? {
        return Err(BadMetadata);
      }
      var m := loaded.value;
      VerifyExactly(m.files, InventoryOf(stamp, Subtree(tree, source)));
      if !Sound(Verify(m.files, InventoryOf(stamp, Subtree(tree, source)))) {
        return Err(IntegrityFailed);
      }
      r := Restore(source, destination, m, kind, faults);
      if r.Ok? {
        UnshelvedEffect(old(tree), source, destination, m);
        UnshelvedRelocates(old(tree), tree, source, destination, m);
      }
    }

    /** The moving part of `_reactivate`: the rename and the registration. */
    method MoveOut(source: Path, destination: Path, m: Metadata, kind: Kind, faults: Faults) returns (error: Option<Error>)
      requires Valid() && Separate(source, destination) && destination != []
      requires IsDir(tree, source) && destination !in tree
      modifies this
      ensures Valid() && Free(old(tree), destination)
      ensures error == None <==> Returnable(old(tree), destination, m, kind, faults)
      ensures error.Some? ==>
        && error.value != HistoryFailed && registrations == old(registrations)
        && (tree == old(tree) || tree == MakeDirs(old(tree), Parent(destination)))
      ensures error == None ==> tree == Returned(old(tree), source, destination) && IsDir(tree, destination)
      ensures error == None ==> registrations == Reregistered(old(registrations), kind, m)
    {
      hide WellFormed, Move, Free, Blocked, MakeDirs, Separate;
      AbsentIsFree(tree, destination);
      if Blocked(tree, Parent(destination)) {
        return Some(OsError);
      }
      RollbackWellFormed(tree, destination);
      ReturnedWellFormed(tree, source, destination);
      tree := MakeDirs(tree, Parent(destination));
      if faults.rename {
        return Some(OsError);
      }
      tree := Move(tree, source, destination);
      if kind.Project? && m.registration.Some? {
        if faults.registry {
          tree := Move(tree, destination, source);
          return Some(OsError);
        }
        registrations := registrations[Text.Strip(m.projectId) := m.registration.value];
      }
      return None;
    }

    /** `_reactivate` once the archive has been verified. */
    method Restore(source: Path, destination: Path, m: Metadata, kind: Kind, faults: Faults)
      returns (r: Result<Metadata, Error>)
      requires Valid() && Separate(source, destination) && destination != []
      requires IsDir(tree, source) && destination !in tree && IsFile(tree, source + [METADATA])
      modifies this
      ensures Valid() && Free(old(tree), destination)
      ensures r.Err? && r.error != HistoryFailed ==>
        && registrations == old(registrations)
        && (tree == old(tree) || tree == MakeDirs(old(tree), Parent(destination)))
      ensures r == Err(HistoryFailed) ==> Relocated(old(tree), tree, source, destination)
      ensures r.Ok? || r == Err(HistoryFailed) ==> registrations == Reregistered(old(registrations), kind, m)
      ensures r.Ok? <==> Movable(old(tree), source, destination, m, kind, faults)
      ensures r == Err(HistoryFailed) <==>
        Returnable(old(tree), destination, m, kind, faults) && (faults.history || !Recordable(old(tree), source, m))
      ensures r == Err(HistoryFailed) ==> Stranded(old(tree), tree, source, destination)
      ensures r.Ok? ==> r.value == m && tree == Unshelved(old(tree), source, destination, m)
    {
      hide WellFormed, Move, Free, Blocked, MakeDirs, Separate, Recordable, Relocated, RecordName;
      ghost var t := tree;
      var error := MoveOut(source, destination, m, kind, faults);
      if error.Some? {
        return Err(error.value);
      }
      ReturnedRecordable(t, source, destination, m);
      r := WriteHistory(destination, m, faults);
      if r.Err? {
        ReturnedRelocates(t, source, destination);
        RelocatedWithHistory(t, Returned(t, source, destination), source, destination);
      }
    }

    method WriteHistory(place: Path, m: Metadata, faults: Faults) returns (r: Result<Metadata, Error>)
      requires Valid() && place != [] && IsDir(tree, place) && IsFile(tree, place + [METADATA])
      modifies this`tree
      ensures Valid()
      ensures r.Err? ==> r.error == HistoryFailed && (tree == old(tree) || tree == old(tree)[place + [HISTORY] := Dir])
      ensures r.Ok? <==> !faults.history && Recordable(old(tree), place, m)
      ensures r.Ok? ==>
        && r.value == m
        && tree == old(tree)[place + [HISTORY] := Dir][place + [HISTORY, RecordName(m)] := File(Restored(m))]
                   - {place + [METADATA]}
    {
      if IsFile(tree, place + [HISTORY]) {
        return Err(HistoryFailed);
      }
      var record := place + [HISTORY, RecordName(m)];
      SameBelow(place, [HISTORY, RecordName(m)], [HISTORY]);
      assert Parent(place + [HISTORY]) == place;
      AddWellFormed(tree, place + [HISTORY], Dir);
      if faults.history || IsDir(tree, record) {
        tree := tree[place + [HISTORY] := Dir];
        return Err(HistoryFailed);
      }
      RecordingWellFormed(tree, place, m);
      tree := tree[place + [HISTORY] := Dir];
      tree := tree[record := File(Restored(m))];
      tree := tree - {place + [METADATA]};
      return Ok(m);
    }

    /** `reactivate_task` */
    method ReactivateTask(projectId: string, taskId: string, faults: Faults) returns (r: Result<Metadata, Error>)
      requires Valid()
      modifies this
      ensures Valid()
      ensures var p, k := Text.Strip(projectId), Text.Strip(taskId);
        && (!SafeId(p) ==> r.Err? && tree == old(tree))
        && OutcomeOf(old(tree), tree, ArchivedTask(p, k), ActiveTask(p, k))
        && (r.Err? && r.error != HistoryFailed ==>
             Scaffolded(old(tree), tree) && registrations == old(registrations))
        && (tree == old(tree) || tree == Locked(old(tree)) || ActiveProject(p) in Locked(old(tree)))
        && (r.Ok? || r == Err(HistoryFailed) ==> IsFile(Locked(old(tree)), ActiveProject(p) + ["project.yaml"]))
        && (r.Ok? ==>
             && LoadMetadata(Locked(old(tree)), ArchivedTask(p, k), Task) == Some(r.value)
             && UnshelvedTo(Locked(old(tree)), tree, ArchivedTask(p, k), ActiveTask(p, k), r.value)
             && registrations == old(registrations))
        && (r.Ok? <==>
             && SafeId(p) && SafeId(k) && !Blocked(old(tree), ARCHIVE) && !IsDir(old(tree), LOCK)
             && IsFile(Locked(old(tree)), ActiveProject(p) + ["project.yaml"])
             && Restorable(stamp, Locked(old(tree)), ArchivedTask(p, k), ActiveTask(p, k), Task, faults))
        && (r == Err(HistoryFailed) <==>
             && SafeId(p) && SafeId(k) && !Blocked(old(tree), ARCHIVE) && !IsDir(old(tree), LOCK)
             && IsFile(Locked(old(tree)), ActiveProject(p) + ["project.yaml"])
             && Strands(stamp, Locked(old(tree)), ArchivedTask(p, k), ActiveTask(p, k), Task, faults))
        && (r == Err(HistoryFailed) ==> Stranded(Locked(old(tree)), tree, ArchivedTask(p, k), ActiveTask(p, k)))
    {
      hide Relocated, ShelvedTo, UnshelvedTo, Scaffolded, WellFormed, Locked, MakeDirs, InventoryOf;
      var p, k := Text.Strip(projectId), Text.Strip(taskId);
      FailureScaffolds(tree, ActiveTask(p, k));
      if !SafeId(p) || !SafeId(k) {
        return Err(InvalidId);
      }
      var locked := Lock();
      if !locked {
        return Err(OsError);
      }
      if !IsFile(tree, ActiveProject(p) + ["project.yaml"]) {
        return Err(ProjectInactive);
      }
      ProjectAbove(tree, p);
      PlacesApart(p, k, p, k);
      r := Reactivate(ArchivedTask(p, k), ActiveTask(p, k), Task, faults);
    }

    /** `reactivate_project` */
    method ReactivateProject(projectId: string, faults: Faults) returns (r: Result<Metadata, Error>)
      requires Valid()
      modifies this
      ensures Valid()
      ensures var p := Text.Strip(projectId);
        && (!SafeId(p) ==> r.Err? && tree == old(tree))
        && OutcomeOf(old(tree), tree, ArchivedProject(p), ActiveProject(p))
        && (r.Err? && r.error != HistoryFailed ==>
             Scaffolded(old(tree), tree) && registrations == old(registrations))
        && (r.Ok? ==>
             && LoadMetadata(Locked(old(tree)), ArchivedProject(p), Project) == Some(r.value)
             && UnshelvedTo(Locked(old(tree)), tree, ArchivedProject(p), ActiveProject(p), r.value)
             && registrations == Reregistered(old(registrations), Project, r.value))
        && (r.Ok? <==>
             && SafeId(p) && !Blocked(old(tree), ARCHIVE) && !IsDir(old(tree), LOCK)
             && Restorable(stamp, Locked(old(tree)), ArchivedProject(p), ActiveProject(p), Project, faults))
        && (r == Err(HistoryFailed) <==>
             && SafeId(p) && !Blocked(old(tree), ARCHIVE) && !IsDir(old(tree), LOCK)
             && Strands(stamp, Locked(old(tree)), ArchivedProject(p), ActiveProject(p), Project, faults))
        && (r == Err(HistoryFailed) ==> Stranded(Locked(old(tree)), tree, ArchivedProject(p), ActiveProject(p)))
    {
      hide Relocated, ShelvedTo, UnshelvedTo, Scaffolded, WellFormed, Locked, MakeDirs, InventoryOf;
      var p := Text.Strip(projectId);
      FailureScaffolds(tree, ActiveProject(p));
      if !SafeId(p) {
        return Err(InvalidId);
      }
      var locked := Lock();
      if !locked {
        return Err(OsError);
      }
      SafeIdIsNotHidden(p);
      assert ActiveProject(p)[1] == p && ArchivedProject(p)[1] == ".archive";
      r := Reactivate(ArchivedProject(p), ActiveProject(p), Project, faults);
    }

    /** One cycle of a task, when no system call fails: exactly when it goes through, that the
        dossier is then what it was with one history record more and ready for the next cycle,
        and exactly when it ends in the history window. */
    method ArchiveAndReactivateTask(projectId: string, taskId: string, archiveId: string)
      returns (archived: Result<Metadata, Error>, back: Result<Metadata, Error>)
      requires Valid()
      modifies this
      ensures Valid()
      ensures var p, k := Text.Strip(projectId), Text.Strip(taskId);
        archived.Ok? <==>
          && SafeId(p) && SafeId(k) && !Blocked(old(tree), ARCHIVE) && !IsDir(old(tree), LOCK)
          && TaskArchivable(manifestId, Locked(old(tree)), p, k, CALM)
      ensures var p, k := Text.Strip(projectId), Text.Strip(taskId);
        var place, m := ActiveTask(p, k), TaskMetadata(stamp, Locked(old(tree)), p, k, archiveId);
        && (archived.Ok? ==> archived.value == m)
        && (back.Ok? <==> TaskCyclable(manifestId, old(tree), p, k) && Recordable(Locked(old(tree)), place, m))
        && (back == Err(HistoryFailed) <==>
              TaskCyclable(manifestId, old(tree), p, k) && !Recordable(Locked(old(tree)), place, m))
        && (back.Ok? ==>
              && back == archived && registrations == old(registrations)
              && Subtree(tree, place) == Recorded(Subtree(Locked(old(tree)), place), m)
              && TaskCyclable(manifestId, tree, p, k) && Locked(tree) == tree)
    {
      hide Relocated, InventoryOf, WellFormed, OutcomeOf, Scaffolded, MakeDirs, Locked, Subtree, Recorded, Strands, Stranded;
      hide Restorable, LoadMetadata, SafeId, Recordable, Blocked, TaskMetadata, ShelvedTo, UnshelvedTo, Unshelvable, TaskArchivable,
           Elsewhere, Free, Kept, Intact, Identified, ActiveTask, ArchivedTask, ActiveProject;
      var p, k := Text.Strip(projectId), Text.Strip(taskId);
      archived := ArchiveTask(projectId, taskId, archiveId, CALM);
      if archived.Err? {
        return archived, archived;
      }
      ghost var shelved := tree;
      LockWellFormed(old(tree));
      ShelvedIsRestorable(stamp, old(tree), shelved, p, k, archiveId);
      back := ReactivateTask(projectId, taskId, CALM);
      if back.Ok? {
        TaskCycleReady(manifestId, old(tree), shelved, tree, p, k, archived.value);
      }
    }

    /** The same for a project, whose registration comes back with it. */
    method ArchiveAndReactivateProject(projectId: string, archiveId: string)
      returns (archived: Result<Metadata, Error>, back: Result<Metadata, Error>)
      requires Valid()
      modifies this
      ensures Valid()
      ensures var p := Text.Strip(projectId);
        archived.Ok? <==> ProjectCyclable(old(tree), p in old(registrations), p)
      ensures var p := Text.Strip(projectId);
        var place, m := ActiveProject(p), ProjectMetadata(stamp, Locked(old(tree)), old(registrations), p, archiveId);
        var cyclable := ProjectCyclable(old(tree), p in old(registrations), p);
        && (archived.Ok? ==> archived.value == m)
        && (back.Ok? <==> cyclable && Recordable(Locked(old(tree)), place, m))
        && (back == Err(HistoryFailed) <==> cyclable && !Recordable(Locked(old(tree)), place, m))
        && (back.Ok? ==>
              && back == archived && registrations == old(registrations)
              && Subtree(tree, place) == Recorded(Subtree(Locked(old(tree)), place), m)
              && ProjectCyclable(tree, p in registrations, p) && Locked(tree) == tree)
    {
      hide Relocated, InventoryOf, WellFormed, OutcomeOf, Scaffolded, MakeDirs, Locked, Subtree, Recorded, Free, Strands, Stranded;
      hide Restorable, LoadMetadata, SafeId, Recordable, Blocked, ProjectMetadata, ShelvedTo, UnshelvedTo,
           ProjectArchivable, Reregistered;
      var p := Text.Strip(projectId);
      archived := ArchiveProject(projectId, archiveId, CALM);
      if archived.Err? {
        return archived, archived;
      }
      ghost var shelved := tree;
      LockWellFormed(old(tree));
      ProjectIsRestorable(stamp, old(tree), shelved, old(registrations), p, archiveId);
      back := ReactivateProject(projectId, CALM);
      if back.Ok? {
        ProjectCycleReady(old(tree), shelved, tree, p in old(registrations), p, archived.value);
        RegistrationReturns(stamp, Locked(old(tree)), old(registrations), p, archiveId);
      }
    }

    /** Cycle after cycle, until one fails. All go through exactly when the dossier can be cycled
        at the start and no record is in the way, and then the dossier has kept everything. */
    method CycleTask(projectId: string, taskId: string, ids: seq<string>) returns (done: nat)
      requires Valid()
      modifies this
      ensures Valid() && done <= |ids|
      ensures var p, k := Text.Strip(projectId), Text.Strip(taskId);
        var place := ActiveTask(p, k);
        var before := Subtree(Locked(old(tree)), place);
        && (done == |ids| <==>
              (ids != [] ==> TaskCyclable(manifestId, old(tree), p, k))
              && forall i :: 0 <= i < |ids| ==> RecordableIn(before, ids[i] + ".yaml"))
        && (done == |ids| > 0 ==>
              && CyclesKept(stamp, before, Subtree(tree, place), TaskRecords(stamp, before, p, k, ids))
              && registrations == old(registrations))
    {
      hide InventoryOf, WellFormed, MakeDirs, Locked, Subtree, SafeId, Recordable, RecordableIn, TaskMetadata, TaskCyclable,
           CyclesKept, RecordedAll, Recorded, TaskArchivable, TaskRecords, Blocked;
      ghost var p, k := Text.Strip(projectId), Text.Strip(taskId);
      ghost var place := ActiveTask(p, k);
      ghost var before := Subtree(Locked(tree), place);
      ghost var records := TaskRecords(stamp, before, p, k, ids);
      NoRecords(before);
      assert records[..0] == [];
      done := 0;
      while done < |ids|
        invariant Valid() && done <= |ids| && registrations == old(registrations)
        invariant Subtree(Locked(tree), place) == RecordedAll(before, records[..done])
        invariant forall i :: 0 <= i < done ==> RecordableIn(before, ids[i] + ".yaml")
        invariant if done == 0 then tree == old(tree)
                  else TaskCyclable(manifestId, old(tree), p, k) && TaskCyclable(manifestId, tree, p, k) && Locked(tree) == tree
      {
        NextTaskRecord(stamp, before, Locked(tree), p, k, ids, done);
        var archived, back := ArchiveAndReactivateTask(projectId, taskId, ids[done]);
        if back.Err? {
          return;
        }
        done := done + 1;
      }
      assert records[..|ids|] == records;
      CyclesKeep(stamp, before, records);
    }

    /** The same for a project. */
    method CycleProject(projectId: string, ids: seq<string>) returns (done: nat)
      requires Valid()
      modifies this
      ensures Valid() && done <= |ids|
      ensures var p := Text.Strip(projectId);
        var place := ActiveProject(p);
        var before := Subtree(Locked(old(tree)), place);
        && (done == |ids| <==>
              (ids != [] ==> ProjectCyclable(old(tree), p in old(registrations), p))
              && forall i :: 0 <= i < |ids| ==> RecordableIn(before, ids[i] + ".yaml"))
        && (done == |ids| > 0 ==>
              && CyclesKept(stamp, before, Subtree(tree, place), ProjectRecords(stamp, before, old(registrations), p, ids))
              && registrations == old(registrations))
    {
      hide InventoryOf, WellFormed, MakeDirs, Locked, Subtree, SafeId, Recordable, RecordableIn, ProjectMetadata, ProjectCyclable,
           CyclesKept, RecordedAll, Recorded, ProjectArchivable, ProjectRecords, Blocked;
      ghost var p := Text.Strip(projectId);
      ghost var place := ActiveProject(p);
      ghost var before := Subtree(Locked(tree), place);
      ghost var records := ProjectRecords(stamp, before, registrations, p, ids);
      NoRecords(before);
      assert records[..0] == [];
      done := 0;
      while done < |ids|
        invariant Valid() && done <= |ids| && registrations == old(registrations)
        invariant Subtree(Locked(tree), place) == RecordedAll(before, records[..done])
        invariant forall i :: 0 <= i < done ==> RecordableIn(before, ids[i] + ".yaml")
        invariant if done == 0 then tree == old(tree)
                  else ProjectCyclable(old(tree), p in old(registrations), p)
                       && ProjectCyclable(tree, p in registrations, p) && Locked(tree) == tree
      {
        NextProjectRecord(stamp, before, Locked(tree), registrations, p, ids, done);
        var archived, back := ArchiveAndReactivateProject(projectId, ids[done]);
        if back.Err? {
          return;
        }
        done := done + 1;
      }
      assert records[..|ids|] == records;
      CyclesKeep(stamp, before, records);
    }

    /** Any sequence of operations, with any failures: every task dossier and project directory
        that starts in one place ends in one place, and every task dossier with its contents. */
    method Perform(operations: seq<Operation>)
      requires Valid()
      modifies this
      ensures Valid() && CatalogKept(old(tree), tree)
    {
      hide WellFormed, CatalogKept;
      CatalogKeptSelf(tree);
      for i := 0 to |operations|
        invariant Valid() && CatalogKept(old(tree), tree)
      {
        ghost var mid := tree;
        PerformOne(operations[i]);
        CatalogKeptThen(old(tree), mid, tree);
      }
    }

    method PerformOne(operation: Operation)
      requires Valid()
      modifies this
      ensures Valid() && CatalogKept(old(tree), tree)
    {
      hide WellFormed, OutcomeOf, CatalogKept, SafeId, ShelvedTo, UnshelvedTo, Scaffolded, Restorable, LoadMetadata, Strands, Stranded;
      hide Locked, TaskMetadata, Unshelvable, InventoryOf, TaskArchivable, ProjectArchivable, ProjectMetadata, Reregistered;
      ghost var before := tree;
      CatalogKeptSelf(tree);
      match operation
      case ArchiveTaskOp(project, task, id, faults) =>
        var r := ArchiveTask(project, task, id, faults);
        if SafeId(Text.Strip(project)) {
          TaskOperationKeeps(before, tree, true, Text.Strip(project), Text.Strip(task));
        }
      case ReactivateTaskOp(project, task, faults) =>
        var r := ReactivateTask(project, task, faults);
        if SafeId(Text.Strip(project)) {
          TaskOperationKeeps(before, tree, false, Text.Strip(project), Text.Strip(task));
        }
      case ArchiveProjectOp(project, id, faults) =>
        var r := ArchiveProject(project, id, faults);
        if SafeId(Text.Strip(project)) {
          ProjectOperationKeeps(before, tree, true, Text.Strip(project));
        }
      case ReactivateProjectOp(project, faults) =>
        var r := ReactivateProject(project, faults);
        if SafeId(Text.Strip(project)) {
          ProjectOperationKeeps(before, tree, false, Text.Strip(project));
        }
    }
  }
}
