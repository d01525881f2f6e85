/** When the operations of the catalog archive (src/execraft/catalog_archive.py) go through,
    spelled out over the paths of the tree. */
module CatalogConditions {
  import opened Json
  import opened FileTree
  import opened ArchiveEffects
  import opened CatalogPlaces
  import opened CatalogGuards
  import Text

  // ----- Identifiers -----

  function Underscored(text: string): string {
    seq(|text|, i requires 0 <= i < |text| => if text[i] == '-' then '_' else text[i])
  }

  predicate Letter(c: char) {
    'a' <= c <= 'z' || 'A' <= c <= 'Z' || c == '_'
  }

  predicate Identifier(text: string) {
    text != "" && Letter(text[0]) && forall i :: 0 <= i < |text| ==> Letter(text[i]) || '0' <= text[i] <= '9'
  }

  /** An id is safe exactly when it is an identifier once its dashes are underscores. */
  lemma SafeIdExactly(id: string)
    ensures SafeId(id) <==> Identifier(Underscored(id))
  {
    var text := Underscored(id);
    forall i | 0 <= i < |id|
      ensures IdPart(id[i]) <==> Letter(text[i]) || '0' <= text[i] <= '9'
      ensures IdStart(id[i]) <==> Letter(text[i])
    {
    }
    if SafeId(id) {
      assert forall i :: 0 <= i < |id| ==> id[i] in id;
    }
  }

  // ----- Archiving -----

  predicate Stands(t: Dossier, path: Path, node: Node<Content>) {
    path in t && t[path] == node
  }

  predicate IsRegular(t: Dossier, path: Path) {
    path in t && t[path] != Dir
  }

  /** A regular file stands where a directory is needed. */
  ghost predicate InTheWay(t: Dossier, directory: Path) {
    exists above :: above <= directory && IsRegular(t, above)
  }

  lemma BlockedExactly(t: Dossier, directory: Path)
    ensures Blocked(t, directory) <==> InTheWay(t, directory)
  {
    if above :| above <= directory && IsRegular(t, above) {
      assert directory[..|above|] == above;
    }
    if k :| 0 <= k <= |directory| && directory[..k] in t && t[directory[..k]].File? {
      assert directory[..k] <= directory && IsRegular(t, directory[..k]);
    }
  }

  /** Archiving a task goes through exactly when it has a directory with a manifest that names it or
      no task, nothing of its name is archived or reserved, and no file or fault is in the way. */
  lemma TaskArchivableExactly(
    manifestId: Content -> Option<string>, t: Dossier, p: string, k: string, faults: Faults)
    ensures TaskArchivable(manifestId, t, p, k, faults) <==>
      && Stands(t, ["projects", p, "tasks", k], Dir)
      && IsRegular(t, ["projects", p, "tasks", k, "TASK.yaml"])
      && (var id := manifestId(t[["projects", p, "tasks", k, "TASK.yaml"]].content); id == Some("") || id == Some(k))
      && ["projects", p, "tasks", k, ".archive.yaml"] !in t
      && ["projects", ".archive", "tasks", p, k] !in t
      && !InTheWay(t, ["projects", ".archive", "tasks", p])
      && !faults.write && !faults.rename
  {
    var source, parent: Path := ["projects", p, "tasks", k], ["projects", ".archive", "tasks", p];
    assert source + ["TASK.yaml"] == ["projects", p, "tasks", k, "TASK.yaml"];
    assert source + [METADATA] == ["projects", p, "tasks", k, ".archive.yaml"];
    assert Parent(ArchivedTask(p, k)) == parent;
    BlockedExactly(t, parent);
    assert !(source + [METADATA] <= parent);
    hide Blocked, InTheWay;
  }

  lemma ProjectArchivableExactly(t: Dossier, registered: bool, p: string, faults: Faults)
    ensures ProjectArchivable(t, registered, p, faults) <==>
      && Stands(t, ["projects", p], Dir)
      && IsRegular(t, ["projects", p, "project.yaml"])
      && ["projects", p, ".archive.yaml"] !in t
      && ["projects", ".archive", "projects", p] !in t
      && !InTheWay(t, ["projects", ".archive", "projects"])
      && !faults.write && !faults.rename && !(registered && faults.registry)
  {
    var source, parent: Path := ["projects", p], ["projects", ".archive", "projects"];
    assert source + ["project.yaml"] == ["projects", p, "project.yaml"];
    assert source + [METADATA] == ["projects", p, ".archive.yaml"];
    assert Parent(ArchivedProject(p)) == parent;
    BlockedExactly(t, parent);
    hide Blocked, InTheWay;
  }

  // ----- Reactivating -----

  /** The metadata document at the top of an archived directory, if it is one of that place. */
  predicate Describes(t: Dossier, source: Path, kind: Kind, m: Metadata) {
    && (Stands(t, source + [".archive.yaml"], File(Archived(m))) || Stands(t, source + [".archive.yaml"], File(Restored(m))))
    && m.version == 1 && m.kind == kind
    && SafeId(Text.Strip(m.id)) && SafeId(Text.Strip(m.projectId))
    && source ==
       (match kind
        case Task => ["projects", ".archive", "tasks", Text.Strip(m.projectId), Text.Strip(m.id)]
        case Project => ["projects", ".archive", "projects", Text.Strip(m.id)])
    && (kind == Project ==> Text.Strip(m.projectId) == Text.Strip(m.id))
  }

  lemma LoadExactly(t: Dossier, source: Path, kind: Kind, m: Metadata)
    ensures LoadMetadata(t, source, kind) == Some(m) <==> Stands(t, source, Dir) && Describes(t, source, kind, m)
  {
    hide SafeId;
  }

  lemma IntactExactly(stamp: Content -> Stamp, t: Dossier, source: Path, files: Inventory)
    ensures Intact(stamp, t, source, files) <==> files == InventoryOf(stamp, Subtree(t, source))
  {
    var actual := InventoryOf(stamp, Subtree(t, source));
    VerifiedIsIntact(stamp, t, source);
    hide InventoryOf, Subtree;
    if Intact(stamp, t, source, files) {
      forall rel
        ensures rel in files <==> rel in actual
        ensures rel in files ==> files[rel] == actual[rel]
      {
        assert IntactAt(stamp, t, source, files, rel) && IntactAt(stamp, t, source, actual, rel);
      }
    }
  }

  /** Reactivation goes through exactly when the archived directory has its metadata document, holds
      exactly the files that lists, and nothing is in the way of the move, of the registration of a
      project, or of the history record. */
  lemma RestorableExactly(
    stamp: Content -> Stamp, t: Dossier, source: Path, destination: Path, kind: Kind, faults: Faults)
    requires destination != []
    ensures Restorable(stamp, t, source, destination, kind, faults) <==>
      && Stands(t, source, Dir) && destination !in t
      && !InTheWay(t, destination[..|destination| - 1])
      && !faults.rename && !faults.history
      && !IsRegular(t, source + [".execraft-archive-history"])
      && exists m :: Restores(stamp, t, source, kind, m) && !(kind == Project && m.registration != None && faults.registry)
  {
    BlockedExactly(t, destination[..|destination| - 1]);
    hide Blocked, InTheWay, LoadMetadata, Describes, InventoryOf, Subtree, Intact;
    if LoadMetadata(t, source, kind).Some? {
      var m := LoadMetadata(t, source, kind).value;
      LoadExactly(t, source, kind, m);
      IntactExactly(stamp, t, source, m.files);
    }
    forall m | Stands(t, source, Dir) && Describes(t, source, kind, m)
      ensures LoadMetadata(t, source, kind) == Some(m)
    {
      LoadExactly(t, source, kind, m);
    }
  }

  /** The metadata document fits the place and the files, and its history record can be written. */
  ghost predicate Restores(stamp: Content -> Stamp, t: Dossier, source: Path, kind: Kind, m: Metadata) {
    && Describes(t, source, kind, m) && Intact(stamp, t, source, m.files)
    && !Stands(t, source + [".execraft-archive-history", m.archiveId + ".yaml"], Dir)
  }
}
