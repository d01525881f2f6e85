/** When the operations of the catalog archive (src/execraft/catalog_archive.py) go through,
    and the trees in between. */
module CatalogGuards {
  import opened Json
  import opened FileTree
  import opened ArchiveEffects
  import opened CatalogPlaces
  import Text

  lemma LockWellFormed(t: Dossier)
    requires WellFormed(t) && !Blocked(t, ARCHIVE) && !IsDir(t, LOCK)
    ensures WellFormed(Locked(t))
  {
    MakeDirsWellFormed(t, ARCHIVE);
    assert Parent(LOCK) == ARCHIVE;
    AddWellFormed(MakeDirs(t, ARCHIVE), LOCK, File(Raw("")));
  }

  lemma LockKeepsFile(t: Dossier, path: Path)
    requires path in t
    ensures path in Locked(t) && Locked(t)[path] == t[path]
  {
  }

  /** Nothing that was there is lost by an operation that fails. */
  lemma FailureScaffolds(t: Dossier, target: Path)
    requires target != []
    ensures Scaffolded(t, t) && Scaffolded(t, Locked(t)) && Scaffolded(t, MakeDirs(Locked(t), Parent(target)))
  {
  }

  lemma ShelvedWellFormed(t: Dossier, source: Path, target: Path, m: Metadata)
    requires WellFormed(t) && Separate(source, target) && IsDir(t, source) && Free(t, target)
    requires !Blocked(t, Parent(target)) && source + [METADATA] !in MakeDirs(t, Parent(target))
    ensures WellFormed(Shelved(t, source, target, m))
  {
    var made := MakeDirs(t, Parent(target));
    MakeDirsWellFormed(t, Parent(target));
    assert Parent(source + [METADATA]) == source;
    AddWellFormed(made, source + [METADATA], File(Archived(m)));
    ReadyAt(t, source, target, File(Archived(m)), []);
    assert source + [] == source;
    MoveWellFormed(made[source + [METADATA] := File(Archived(m))], source, target);
  }

  /** The rollback of a project archive whose registration cannot be removed. */
  lemma ShelvingUndone(t: Dossier, source: Path, target: Path, m: Metadata)
    requires Separate(source, target) && Free(t, target) && source + [METADATA] !in MakeDirs(t, Parent(target))
    ensures Move(Shelved(t, source, target, m), target, source) - {source + [METADATA]} == MakeDirs(t, Parent(target))
  {
    hide Move, MakeDirs, Free, Within;
    ReadyAt(t, source, target, File(Archived(m)), []);
    MoveBack(MakeDirs(t, Parent(target))[source + [METADATA] := File(Archived(m))], source, target);
  }

  /** The metadata document adds nothing to the inventory. */
  lemma UntouchedVerifies(stamp: Content -> Stamp, d: Dossier, m: Metadata)
    ensures InventoryOf(stamp, d[[METADATA] := File(Archived(m))]) == InventoryOf(stamp, d)
  {
  }

  function Described(content: Content): Option<Metadata> {
    match content
    case Raw(_) => None
    case Archived(m) => Some(m)
    case Restored(m) => Some(m)
  }

  /** The metadata fits the place it was found in. */
  predicate Identified(path: Path, kind: Kind, m: Metadata) {
    var id, p := Text.Strip(m.id), Text.Strip(m.projectId);
    && m.version == VERSION && m.kind == kind && SafeId(id) && SafeId(p)
    && match kind
       case Project => path == ArchivedProject(id) && p == id
       case Task => path == ArchivedTask(p, id)
  }

  /** `_load_metadata` */
  function LoadMetadata(t: Dossier, path: Path, kind: Kind): Option<Metadata> {
    if !IsDir(t, path) || !IsFile(t, path + [METADATA]) then None
    else
      match Described(t[path + [METADATA]].content)
      case Some(m) => if Identified(path, kind, m) then Some(m) else None
      case None => None
  }

  /** A history record can be written into a dossier. */
  predicate Recordable(t: Dossier, place: Path, m: Metadata) {
    !IsFile(t, place + [HISTORY]) && !IsDir(t, place + [HISTORY, RecordName(m)])
  }

  lemma RecordingWellFormed(t: Dossier, place: Path, m: Metadata)
    requires WellFormed(t) && IsDir(t, place) && Recordable(t, place, m) && IsFile(t, place + [METADATA])
    ensures WellFormed(t[place + [HISTORY] := Dir][place + [HISTORY, RecordName(m)] := File(Restored(m))]
                       - {place + [METADATA]})
  {
    assert Parent(place + [HISTORY]) == place;
    AddWellFormed(t, place + [HISTORY], Dir);
    var made := t[place + [HISTORY] := Dir];
    assert Parent(place + [HISTORY, RecordName(m)]) == place + [HISTORY];
    SameBelow(place, [HISTORY, RecordName(m)], [HISTORY]);
    AddWellFormed(made, place + [HISTORY, RecordName(m)], File(Restored(m)));
    SameBelow(place, [HISTORY], [METADATA]);
    assert [HISTORY][0] != [METADATA][0];
    DropFileWellFormed(made[place + [HISTORY, RecordName(m)] := File(Restored(m))], place + [METADATA]);
  }

  lemma RollbackWellFormed(t: Dossier, target: Path)
    requires WellFormed(t) && target != [] && !Blocked(t, Parent(target))
    ensures WellFormed(MakeDirs(t, Parent(target)))
  {
    MakeDirsWellFormed(t, Parent(target));
  }

  /** When a reactivation goes through. */
  predicate Restorable(
    stamp: Content -> Stamp, t: Dossier, source: Path, destination: Path, kind: Kind, faults: Faults)
    requires destination != []
  {
    && IsDir(t, source) && destination !in t
    && LoadMetadata(t, source, kind).Some?
    && var m := LoadMetadata(t, source, kind).value;
       && m.files == InventoryOf(stamp, Subtree(t, source))
       && Movable(t, source, destination, m, kind, faults)
  }

  /** What the integrity check of a reactivation covers: `files` names exactly the regular files at
      any depth below `source`, but for the metadata document at the top and the history, each with
      the stamp of its content. */
  ghost predicate Intact(stamp: Content -> Stamp, t: Dossier, source: Path, files: Inventory) {
    forall rel :: IntactAt(stamp, t, source, files, rel)
  }

  predicate IntactAt(stamp: Content -> Stamp, t: Dossier, source: Path, files: Inventory, rel: Path) {
    && (rel in files <==> IsFile(t, source + rel) && rel != [".archive.yaml"] && ".execraft-archive-history" !in rel)
    && (rel in files ==> files[rel] == stamp(t[source + rel].content))
  }

  lemma VerifiedIsIntact(stamp: Content -> Stamp, t: Dossier, source: Path)
    ensures Intact(stamp, t, source, InventoryOf(stamp, Subtree(t, source)))
  {
    hide InventoryOf, Subtree;
    forall rel
      ensures IntactAt(stamp, t, source, InventoryOf(stamp, Subtree(t, source)), rel)
    {
      InventoryExactly(stamp, Subtree(t, source), rel);
      SubtreeAt(t, source, rel);
    }
  }

  /** With a collision-free digest, two shelves with the same metadata that differ in a file the
      check covers, however deep, are not both reactivated. */
  lemma TamperedIsRefused(
    stamp: Content -> Stamp, t: Dossier, u: Dossier, source: Path, destination: Path, kind: Kind, faults: Faults, rel: Path)
    requires Injective(stamp) && destination != []
    requires Restorable(stamp, t, source, destination, kind, faults) && Restorable(stamp, u, source, destination, kind, faults)
    requires LoadMetadata(t, source, kind) == LoadMetadata(u, source, kind)
    requires rel != [".archive.yaml"] && ".execraft-archive-history" !in rel
    ensures IsFile(t, source + rel) <==> IsFile(u, source + rel)
    ensures IsFile(t, source + rel) ==> t[source + rel] == u[source + rel]
  {
    hide InventoryOf, Subtree, LoadMetadata, Movable;
    VerifiedIsIntact(stamp, t, source);
    VerifiedIsIntact(stamp, u, source);
    var files := LoadMetadata(t, source, kind).value.files;
    assert IntactAt(stamp, t, source, files, rel) && IntactAt(stamp, u, source, files, rel);
  }

  predicate Movable(t: Dossier, source: Path, destination: Path, m: Metadata, kind: Kind, faults: Faults)
    requires destination != []
  {
    Returnable(t, destination, m, kind, faults) && !faults.history && Recordable(t, source, m)
  }

  /** The dossier itself can be moved back, and its registration restored. */
  predicate Returnable(t: Dossier, destination: Path, m: Metadata, kind: Kind, faults: Faults)
    requires destination != []
  {
    && !Blocked(t, Parent(destination)) && !faults.rename
    && !(kind.Project? && m.registration.Some? && faults.registry)
  }

  /** When a reactivation moves the dossier and then fails to write its history. */
  predicate Strands(
    stamp: Content -> Stamp, t: Dossier, source: Path, destination: Path, kind: Kind, faults: Faults)
    requires destination != []
  {
    && IsDir(t, source) && destination !in t
    && LoadMetadata(t, source, kind).Some?
    && var m := LoadMetadata(t, source, kind).value;
       && m.files == InventoryOf(stamp, Subtree(t, source))
       && Returnable(t, destination, m, kind, faults)
       && (faults.history || !Recordable(t, source, m))
  }

  /** The dossier is back, with the metadata document still in it and no new history record. */
  ghost predicate Stranded(t: Dossier, after: Dossier, source: Path, destination: Path)
    requires destination != []
  {
    var back := Returned(t, source, destination);
    after == back || after == back[destination + [HISTORY] := Dir]
  }

  /** When a dossier can be moved into the archive. */
  predicate Shelvable(t: Dossier, source: Path, target: Path, faults: Faults)
    requires target != []
  {
    && !Blocked(t, Parent(target)) && source + [METADATA] !in MakeDirs(t, Parent(target))
    && !faults.write && !faults.rename
  }

  /** When archiving a task goes through; `manifestId` reads the id in a TASK.yaml. */
  predicate TaskArchivable(manifestId: Content -> Option<string>, t: Dossier, p: string, k: string, faults: Faults) {
    && IsDir(t, ActiveTask(p, k)) && IsFile(t, ActiveTask(p, k) + ["TASK.yaml"]) && ArchivedTask(p, k) !in t
    && manifestId(t[ActiveTask(p, k) + ["TASK.yaml"]].content) in {Some(""), Some(k)}
    && Shelvable(t, ActiveTask(p, k), ArchivedTask(p, k), faults)
  }

  predicate ProjectArchivable(t: Dossier, registered: bool, p: string, faults: Faults) {
    && IsDir(t, ActiveProject(p)) && IsFile(t, ActiveProject(p) + ["project.yaml"]) && ArchivedProject(p) !in t
    && Shelvable(t, ActiveProject(p), ArchivedProject(p), faults)
    && !(registered && faults.registry)
  }

  /** `_metadata` for a project: its inventory and its registration as they are now. */
  function ProjectMetadata(
    stamp: Content -> Stamp, t: Dossier, registrations: map<string, string>, p: string, archiveId: string): Metadata
  {
    Metadata(VERSION, archiveId, Project, p, p, InventoryOf(stamp, Subtree(t, ActiveProject(p))),
             if p in registrations then Some(registrations[p]) else None)
  }

  /** The registrations once an archived project is back. */
  function Reregistered(registrations: map<string, string>, kind: Kind, m: Metadata): map<string, string> {
    if kind.Project? && m.registration.Some? then registrations[Text.Strip(m.projectId) := m.registration.value]
    else registrations
  }

  /** The directory once it is back, before its history is written. */
  function Returned(t: Dossier, source: Path, destination: Path): Dossier
    requires destination != []
  {
    Move(MakeDirs(t, Parent(destination)), source, destination)
  }

  lemma ReturnedAt(t: Dossier, source: Path, destination: Path, rel: Path)
    requires Separate(source, destination) && Free(t, destination)
    ensures var after := Returned(t, source, destination);
      && (destination + rel in after <==> source + rel in t)
      && (destination + rel in after ==> after[destination + rel] == t[source + rel])
  {
    ParentsOutside(source, destination, rel);
    assert Free(MakeDirs(t, Parent(destination)), destination);
    Moved(MakeDirs(t, Parent(destination)), source, destination, rel);
  }

  lemma ReturnedRecordable(t: Dossier, source: Path, destination: Path, m: Metadata)
    requires Separate(source, destination) && Free(t, destination)
    ensures Recordable(Returned(t, source, destination), destination, m) <==> Recordable(t, source, m)
    ensures IsFile(Returned(t, source, destination), destination + [METADATA]) <==> IsFile(t, source + [METADATA])
  {
    hide Returned, Separate, Free;
    ReturnedAt(t, source, destination, [METADATA]);
    ReturnedAt(t, source, destination, [HISTORY]);
    ReturnedAt(t, source, destination, [HISTORY, RecordName(m)]);
  }

  lemma ReturnedWellFormed(t: Dossier, source: Path, destination: Path)
    requires WellFormed(t) && Separate(source, destination) && IsDir(t, source) && Free(t, destination)
    requires !Blocked(t, Parent(destination))
    ensures WellFormed(Returned(t, source, destination)) && IsDir(Returned(t, source, destination), destination)
    ensures Move(Returned(t, source, destination), destination, source) == MakeDirs(t, Parent(destination))
  {
    var made := MakeDirs(t, Parent(destination));
    MakeDirsWellFormed(t, Parent(destination));
    ParentsOutside(source, destination, []);
    ParentsLeaveFree(t, destination);
    MoveWellFormed(made, source, destination);
    MoveBack(made, source, destination);
    ReturnedAt(t, source, destination, []);
    assert source + [] == source && destination + [] == destination;
  }

  lemma ReturnedKept(t: Dossier, source: Path, destination: Path)
    requires Separate(source, destination) && Free(t, destination)
    ensures Kept(t, source, Returned(t, source, destination), destination)
  {
    hide Returned, Free, Separate;
    forall rel {
      ReturnedAt(t, source, destination, rel);
    }
  }

  lemma ReturnedElsewhere(t: Dossier, source: Path, destination: Path)
    requires Separate(source, destination) && Free(t, destination)
    ensures Elsewhere(t, Returned(t, source, destination), source, destination)
    ensures Free(Returned(t, source, destination), source)
  {
    hide Move;
    var made := MakeDirs(t, Parent(destination));
    ParentsOutside(source, destination, []);
    ParentsLeaveFree(t, destination);
    MoveVacates(made, source, destination);
    forall path | !Within(path, source) && !Within(path, destination) {
      MoveAt(made, source, destination, path);
    }
  }

  lemma ReturnedRelocates(t: Dossier, source: Path, destination: Path)
    requires Separate(source, destination) && IsDir(t, source) && Free(t, destination)
    ensures Relocated(t, Returned(t, source, destination), source, destination)
  {
    hide Returned, Kept, Elsewhere, Free, Separate;
    ReturnedAt(t, source, destination, []);
    assert source + [] == source && destination + [] == destination;
    forall name {
      ReturnedAt(t, source, destination, ["tasks", name]);
    }
    ReturnedKept(t, source, destination);
    ReturnedElsewhere(t, source, destination);
  }

  lemma RelocatedWithHistory(t: Dossier, after: Dossier, source: Path, destination: Path)
    requires Separate(source, destination) && Relocated(t, after, source, destination)
    ensures Relocated(t, after[destination + [HISTORY] := Dir], source, destination)
  {
    hide Kept;
    var more := after[destination + [HISTORY] := Dir];
    assert "tasks"[0] != HISTORY[0];
    forall rel: Path | HISTORY !in rel || rel[0] == "tasks"
      ensures destination + rel != destination + [HISTORY]
    {
      SameBelow(destination, rel, [HISTORY]);
      assert [HISTORY][0] == HISTORY && HISTORY in [HISTORY];
    }
    forall name
      ensures destination + ["tasks", name] in more <==> source + ["tasks", name] in t
    {
      assert ["tasks", name][0] == "tasks";
    }
    forall rel | Ordinary(rel)
      ensures SameAt(t, source + rel, more, destination + rel)
    {
      KeptAt(t, source, after, destination, rel);
    }
    KeptFrom(t, source, more, destination);
  }

  /** `_metadata` for a task: its inventory as it is now. */
  function TaskMetadata(stamp: Content -> Stamp, t: Dossier, p: string, k: string, archiveId: string): Metadata {
    Metadata(VERSION, archiveId, Task, k, p, InventoryOf(stamp, Subtree(t, ActiveTask(p, k))), None)
  }

  /** Nothing stands where the archived task is to go, nor where its metadata is. */
  predicate Unshelvable(t: Dossier, p: string, k: string) {
    Free(t, ArchivedTask(p, k)) && ActiveTask(p, k) + [METADATA] !in t
  }

  const CALM := Faults(false, false, false, false)

  lemma ProjectAbove(t: Dossier, p: string)
    requires WellFormed(t) && IsFile(t, ActiveProject(p) + ["project.yaml"])
    ensures ActiveProject(p) in t
  {
    PrefixPresent(t, ActiveProject(p) + ["project.yaml"], 2);
    assert (ActiveProject(p) + ["project.yaml"])[..2] == ActiveProject(p);
  }
}
