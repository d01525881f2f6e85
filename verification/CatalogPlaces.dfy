/** Where the catalog keeps a task dossier and a project directory, and what every operation
    of the archive (src/execraft/catalog_archive.py), failed or not, leaves as it was. */
module CatalogPlaces {
  import opened Json
  import opened FileTree
  import opened ArchiveEffects

  /** Not the metadata document, nothing in the history. */
  predicate Ordinary(rel: Path) {
    rel != [METADATA] && HISTORY !in rel
  }

  predicate SameAt(t: Dossier, path: Path, after: Dossier, now: Path) {
    (now in after <==> path in t) && (now in after ==> after[now] == t[path])
  }

  /** What stood at and below `place` stands at and below `now`. */
  ghost predicate Kept(t: Dossier, place: Path, after: Dossier, now: Path) {
    forall rel :: Ordinary(rel) ==> SameAt(t, place + rel, after, now + rel)
  }

  lemma KeptInventory(stamp: Content -> Stamp, t: Dossier, place: Path, after: Dossier, now: Path)
    requires Kept(t, place, after, now)
    ensures InventoryOf(stamp, Subtree(after, now)) == InventoryOf(stamp, Subtree(t, place))
  {
    hide Subtree, Kept;
    var d, e := Subtree(t, place), Subtree(after, now);
    forall rel
      ensures Listed(d, rel) <==> Listed(e, rel)
      ensures Listed(e, rel) ==> e[rel] == d[rel]
    {
      KeptAt(t, place, after, now, rel);
      SubtreeAt(t, place, rel);
      SubtreeAt(after, now, rel);
    }
  }

  lemma KeptAt(t: Dossier, place: Path, after: Dossier, now: Path, rel: Path)
    requires Kept(t, place, after, now)
    ensures Ordinary(rel) ==> SameAt(t, place + rel, after, now + rel)
  {
  }

  lemma KeptThen(t: Dossier, a: Path, u: Dossier, b: Path, v: Dossier, c: Path)
    requires Kept(t, a, u, b) && Kept(u, b, v, c)
    ensures Kept(t, a, v, c)
  {
    hide Kept;
    forall rel | Ordinary(rel)
      ensures SameAt(t, a + rel, v, c + rel)
    {
      KeptAt(t, a, u, b, rel);
      KeptAt(u, b, v, c, rel);
    }
    KeptFrom(t, a, v, c);
  }

  lemma KeptFrom(t: Dossier, place: Path, after: Dossier, now: Path)
    requires forall rel :: Ordinary(rel) ==> SameAt(t, place + rel, after, now + rel)
    ensures Kept(t, place, after, now)
  {
  }

  lemma KeptBelow(t: Dossier, place: Path, after: Dossier, now: Path, k: string)
    requires Kept(t, place, after, now) && k != HISTORY
    ensures Kept(t, place + ["tasks", k], after, now + ["tasks", k])
  {
    hide Kept;
    assert "tasks" != HISTORY by {
      assert "tasks"[0] != HISTORY[0];
    }
    forall rel | Ordinary(rel)
      ensures SameAt(t, place + ["tasks", k] + rel, after, now + ["tasks", k] + rel)
    {
      KeptAt(t, place, after, now, ["tasks", k] + rel);
      assert place + ["tasks", k] + rel == place + (["tasks", k] + rel);
      assert now + ["tasks", k] + rel == now + (["tasks", k] + rel);
      assert (["tasks", k] + rel)[..2] == ["tasks", k] && |["tasks", k] + rel| >= 2;
    }
    KeptFrom(t, place + ["tasks", k], after, now + ["tasks", k]);
  }

  lemma ElsewhereKept(t: Dossier, after: Dossier, source: Path, target: Path, place: Path)
    requires target != [] && Elsewhere(t, after, source, target)
    requires Apart(place, source) && Apart(place, target) && !(place <= Parent(target))
    ensures Kept(t, place, after, place)
  {
    hide Kept;
    forall rel | Ordinary(rel)
      ensures SameAt(t, place + rel, after, place + rel)
    {
      ApartBelow(place, source, rel);
      ApartBelow(place, target, rel);
      LongerPrefix(place, rel, Parent(target));
    }
    KeptFrom(t, place, after, place);
  }

  lemma MadeKept(t: Dossier, made: Path, place: Path)
    requires !(place <= made)
    ensures Kept(t, place, MakeDirs(t, made), place)
  {
    hide Kept;
    forall rel | Ordinary(rel)
      ensures SameAt(t, place + rel, MakeDirs(t, made), place + rel)
    {
      LongerPrefix(place, rel, made);
    }
    KeptFrom(t, place, MakeDirs(t, made), place);
  }

  lemma LockKept(t: Dossier, place: Path)
    requires !(place <= ARCHIVE) && !(place <= LOCK)
    ensures Kept(t, place, Locked(t), place)
  {
    hide Kept;
    forall rel | Ordinary(rel)
      ensures SameAt(t, place + rel, Locked(t), place + rel)
    {
      LongerPrefix(place, rel, ARCHIVE);
      LongerPrefix(place, rel, LOCK);
      assert place + rel <= LOCK || place + rel != LOCK;
    }
    KeptFrom(t, place, Locked(t), place);
  }

  /** A dossier has gone from one place to the other, as it was. */
  ghost predicate Relocated(t: Dossier, after: Dossier, source: Path, target: Path)
    requires target != []
  {
    && source in t && target in after
    && Free(t, target) && Free(after, source)
    && Elsewhere(t, after, source, target)
    && (forall name :: target + ["tasks", name] in after <==> source + ["tasks", name] in t)
    && Kept(t, source, after, target)
  }

  lemma ShelvedKeeps(t: Dossier, after: Dossier, source: Path, target: Path, m: Metadata, rel: Path)
    requires Subtree(after, target) == Subtree(t, source)[[METADATA] := File(Archived(m))] && rel != [METADATA]
    ensures SameAt(t, source + rel, after, target + rel)
  {
    hide Subtree;
    SubtreeAt(t, source, rel);
    SubtreeAt(after, target, rel);
  }

  lemma ShelvedRelocates(t: Dossier, after: Dossier, source: Path, target: Path, m: Metadata)
    requires target != [] && ShelvedTo(t, after, source, target, m) && source in t && Free(t, target)
    ensures Relocated(t, after, source, target)
  {
    hide Subtree, Kept, Elsewhere, Free;
    ShelvedKeeps(t, after, source, target, m, []);
    assert source + [] == source && target + [] == target;
    forall name {
      ShelvedKeeps(t, after, source, target, m, ["tasks", name]);
    }
    forall rel | Ordinary(rel) {
      ShelvedKeeps(t, after, source, target, m, rel);
    }
    KeptFrom(t, source, after, target);
  }

  lemma UnshelvedKeeps(t: Dossier, after: Dossier, source: Path, target: Path, m: Metadata, rel: Path)
    requires Subtree(after, target) == Recorded(Subtree(t, source) - {[METADATA]}, m)
    requires rel != [METADATA] && (HISTORY !in rel || rel[0] == "tasks")
    ensures SameAt(t, source + rel, after, target + rel)
  {
    hide Subtree, Recorded;
    SubtreeAt(t, source, rel);
    SubtreeAt(after, target, rel);
    RecordedAt(Subtree(t, source), m, rel);
    assert "tasks"[0] != HISTORY[0];
    assert HISTORY in [HISTORY] && HISTORY in [HISTORY, RecordName(m)];
    assert [HISTORY][0] == HISTORY == [HISTORY, RecordName(m)][0];
  }

  lemma UnshelvedRelocates(t: Dossier, after: Dossier, source: Path, target: Path, m: Metadata)
    requires target != [] && UnshelvedTo(t, after, source, target, m) && source in t && Free(t, target)
    ensures Relocated(t, after, source, target)
  {
    hide Subtree, Recorded, Elsewhere, Free, Kept;
    UnshelvedKeeps(t, after, source, target, m, []);
    assert source + [] == source && target + [] == target;
    forall name {
      UnshelvedKeeps(t, after, source, target, m, ["tasks", name]);
    }
    forall rel | Ordinary(rel) {
      UnshelvedKeeps(t, after, source, target, m, rel);
    }
    KeptFrom(t, source, after, target);
  }

  /** The dossier of task `k` of project `p` is active, archived by itself, or archived with
      its project: exactly one of the three. */
  predicate InOnePlace(t: Dossier, p: string, k: string) {
    var active, archived, inside := ActiveTask(p, k) in t, ArchivedTask(p, k) in t, TaskInArchivedProject(p, k) in t;
    (active && !archived && !inside) || (!active && archived && !inside) || (!active && !archived && inside)
  }

  /** Which of two distinct dossiers' places can be parents of one another: none. */
  lemma PlacesApart(p: string, k: string, q: string, j: string)
    requires SafeId(p) && SafeId(q)
    ensures !Within(ActiveTask(p, k), ArchivedTask(q, j)) && !Within(ArchivedTask(p, k), ActiveTask(q, j))
    ensures !Within(TaskInArchivedProject(p, k), ArchivedTask(q, j)) && !Within(TaskInArchivedProject(p, k), ActiveTask(q, j))
    ensures Within(ActiveTask(p, k), ActiveTask(q, j)) ==> p == q && k == j
    ensures Within(ArchivedTask(p, k), ArchivedTask(q, j)) ==> p == q && k == j
    ensures !(ActiveTask(p, k) <= Parent(ArchivedTask(q, j))) && !(ActiveTask(p, k) <= Parent(ActiveTask(q, j)))
    ensures !(ArchivedTask(p, k) <= Parent(ArchivedTask(q, j))) && !(ArchivedTask(p, k) <= Parent(ActiveTask(q, j)))
    ensures !(TaskInArchivedProject(p, k) <= Parent(ArchivedTask(q, j)))
    ensures !(TaskInArchivedProject(p, k) <= Parent(ActiveTask(q, j)))
  {
    SafeIdIsNotHidden(p);
    SafeIdIsNotHidden(q);
    assert ActiveTask(p, k)[1] == p && ActiveTask(q, j)[1] == q && ActiveTask(p, k)[3] == k;
    assert ArchivedTask(p, k)[3] == p && ArchivedTask(p, k)[4] == k && ArchivedTask(p, k)[1] == ".archive";
    assert ArchivedTask(q, j)[1] == ".archive" && ArchivedTask(q, j)[2] == "tasks";
    assert TaskInArchivedProject(p, k)[1] == ".archive" && TaskInArchivedProject(p, k)[2] == "projects";
    assert Parent(ArchivedTask(q, j)) == ["projects", ".archive", "tasks", q];
    assert Parent(ActiveTask(q, j)) == ["projects", q, "tasks"];
  }

  lemma TaskMoveKeepsPlaces(t: Dossier, after: Dossier, archiving: bool, q: string, j: string, p: string, k: string)
    requires SafeId(p) && SafeId(q)
    requires if archiving then Relocated(t, after, ActiveTask(q, j), ArchivedTask(q, j))
             else Relocated(t, after, ArchivedTask(q, j), ActiveTask(q, j))
    requires InOnePlace(t, p, k)
    ensures InOnePlace(after, p, k)
  {
    PlacesApart(p, k, q, j);
  }

  lemma ProjectPlacesApart(p: string, k: string, q: string)
    requires SafeId(p) && SafeId(q)
    ensures ActiveTask(p, k) == ActiveProject(p) + ["tasks", k]
    ensures TaskInArchivedProject(p, k) == ArchivedProject(p) + ["tasks", k]
    ensures Within(ActiveTask(p, k), ActiveProject(q)) <==> p == q
    ensures Within(TaskInArchivedProject(p, k), ArchivedProject(q)) <==> p == q
    ensures !Within(ActiveTask(p, k), ArchivedProject(q)) && !Within(TaskInArchivedProject(p, k), ActiveProject(q))
    ensures !Within(ArchivedTask(p, k), ArchivedProject(q)) && !Within(ArchivedTask(p, k), ActiveProject(q))
    ensures |ActiveTask(p, k)| > |Parent(ArchivedProject(q))| && |ActiveTask(p, k)| > |Parent(ActiveProject(q))|
  {
    SafeIdIsNotHidden(p);
    SafeIdIsNotHidden(q);
    assert ActiveTask(p, k)[1] == p && ActiveProject(q)[1] == q;
    assert ArchivedTask(p, k)[1] == ".archive" && ArchivedTask(p, k)[2] == "tasks";
    assert TaskInArchivedProject(p, k)[1] == ".archive" && TaskInArchivedProject(p, k)[3] == p;
    assert ArchivedProject(q)[1] == ".archive" && ArchivedProject(q)[2] == "projects" && ArchivedProject(q)[3] == q;
    assert |Parent(ArchivedProject(q))| == 3 && |Parent(ActiveProject(q))| == 1;
  }

  lemma ProjectMoveKeepsPlaces(t: Dossier, after: Dossier, archiving: bool, q: string, p: string, k: string)
    requires SafeId(p) && SafeId(q)
    requires if archiving then Relocated(t, after, ActiveProject(q), ArchivedProject(q))
             else Relocated(t, after, ArchivedProject(q), ActiveProject(q))
    requires InOnePlace(t, p, k)
    ensures InOnePlace(after, p, k)
  {
    ProjectPlacesApart(p, k, q);
  }

  lemma LockScaffolds(t: Dossier)
    ensures Scaffolded(t, Locked(t))
    ensures forall path :: path in Locked(t) <==> path in t || path <= ARCHIVE || path == LOCK
  {
  }

  /** What an operation can leave behind: nothing, the lock, the lock and the parents of
      its target, or the dossier in its new place. */
  ghost predicate OutcomeOf(t: Dossier, after: Dossier, source: Path, target: Path)
    requires target != []
  {
    || after == t
    || after == Locked(t)
    || after == MakeDirs(Locked(t), Parent(target))
    || Relocated(Locked(t), after, source, target)
  }

  lemma LockKeepsPlaces(t: Dossier, p: string, k: string)
    requires SafeId(p) && InOnePlace(t, p, k)
    ensures InOnePlace(Locked(t), p, k)
  {
  }

  lemma ParentsKeepPlaces(t: Dossier, q: string, j: string, p: string, k: string)
    requires SafeId(p) && SafeId(q) && InOnePlace(t, p, k)
    ensures InOnePlace(MakeDirs(t, Parent(ActiveTask(q, j))), p, k)
    ensures InOnePlace(MakeDirs(t, Parent(ArchivedTask(q, j))), p, k)
    ensures InOnePlace(MakeDirs(t, Parent(ActiveProject(q))), p, k)
    ensures InOnePlace(MakeDirs(t, Parent(ArchivedProject(q))), p, k)
  {
    PlacesApart(p, k, q, j);
    ProjectPlacesApart(p, k, q);
  }

  /** Archiving or reactivating a task, successfully or not, leaves every dossier that was
      in one place in one place. */
  lemma TaskOperationKeepsPlaces(
    t: Dossier, after: Dossier, archiving: bool, q: string, j: string, p: string, k: string)
    requires SafeId(p) && SafeId(q) && InOnePlace(t, p, k)
    requires if archiving then OutcomeOf(t, after, ActiveTask(q, j), ArchivedTask(q, j))
             else OutcomeOf(t, after, ArchivedTask(q, j), ActiveTask(q, j))
    ensures InOnePlace(after, p, k)
  {
    LockKeepsPlaces(t, p, k);
    ParentsKeepPlaces(Locked(t), q, j, p, k);
    if (if archiving then Relocated(Locked(t), after, ActiveTask(q, j), ArchivedTask(q, j))
        else Relocated(Locked(t), after, ArchivedTask(q, j), ActiveTask(q, j))) {
      TaskMoveKeepsPlaces(Locked(t), after, archiving, q, j, p, k);
    }
  }

  /** The same for a whole project. */
  lemma ProjectOperationKeepsPlaces(
    t: Dossier, after: Dossier, archiving: bool, q: string, p: string, k: string)
    requires SafeId(p) && SafeId(q) && InOnePlace(t, p, k)
    requires if archiving then OutcomeOf(t, after, ActiveProject(q), ArchivedProject(q))
             else OutcomeOf(t, after, ArchivedProject(q), ActiveProject(q))
    ensures InOnePlace(after, p, k)
  {
    LockKeepsPlaces(t, p, k);
    ParentsKeepPlaces(Locked(t), q, "", p, k);
    if (if archiving then Relocated(Locked(t), after, ActiveProject(q), ArchivedProject(q))
        else Relocated(Locked(t), after, ArchivedProject(q), ActiveProject(q))) {
      ProjectMoveKeepsPlaces(Locked(t), after, archiving, q, p, k);
    }
  }

  /** A project directory is active or archived, not both. */
  predicate ProjectInOnePlace(t: Dossier, p: string) {
    ActiveProject(p) in t <==> ArchivedProject(p) !in t
  }

  lemma ProjectDirectoriesApart(p: string, q: string)
    requires SafeId(p) && SafeId(q)
    ensures Within(ActiveProject(p), ActiveProject(q)) <==> p == q
    ensures Within(ArchivedProject(p), ArchivedProject(q)) <==> p == q
    ensures !Within(ActiveProject(p), ArchivedProject(q)) && !Within(ArchivedProject(p), ActiveProject(q))
    ensures !(ActiveProject(p) <= Parent(ArchivedProject(q))) && !(ActiveProject(p) <= Parent(ActiveProject(q)))
    ensures !(ArchivedProject(p) <= Parent(ArchivedProject(q))) && !(ArchivedProject(p) <= Parent(ActiveProject(q)))
    ensures !(ActiveProject(p) <= LOCK) && !(ArchivedProject(p) <= LOCK)
  {
    SafeIdIsNotHidden(p);
    SafeIdIsNotHidden(q);
    assert ActiveProject(p)[1] == p && ActiveProject(q)[1] == q && LOCK[1] == ".archive" && LOCK[2] == ".catalog.lock";
    assert ArchivedProject(p)[1] == ".archive" && ArchivedProject(p)[2] == "projects" && ArchivedProject(p)[3] == p;
    assert ArchivedProject(q)[3] == q && |Parent(ArchivedProject(q))| == 3 && |Parent(ActiveProject(q))| == 1;
    assert Parent(ArchivedProject(q))[1] == ".archive";
  }

  /** A project operation leaves every project directory in exactly one place. */
  lemma ProjectOperationKeepsProjects(t: Dossier, after: Dossier, archiving: bool, q: string, p: string)
    requires SafeId(p) && SafeId(q) && ProjectInOnePlace(t, p)
    requires if archiving then OutcomeOf(t, after, ActiveProject(q), ArchivedProject(q))
             else OutcomeOf(t, after, ArchivedProject(q), ActiveProject(q))
    ensures ProjectInOnePlace(after, p)
  {
    hide Kept;
    ProjectDirectoriesApart(p, q);
    LockScaffolds(t);
    assert ActiveProject(p) != LOCK && ArchivedProject(p) != LOCK && !(ArchivedProject(p) <= ARCHIVE) && !(ActiveProject(p) <= ARCHIVE);
  }

  lemma TaskDirectoriesApart(p: string, q: string, j: string)
    requires SafeId(p) && SafeId(q)
    ensures !Within(ActiveProject(p), ActiveTask(q, j)) && !Within(ActiveProject(p), ArchivedTask(q, j))
    ensures !Within(ArchivedProject(p), ActiveTask(q, j)) && !Within(ArchivedProject(p), ArchivedTask(q, j))
    ensures !(ArchivedProject(p) <= Parent(ActiveTask(q, j))) && !(ArchivedProject(p) <= Parent(ArchivedTask(q, j)))
    ensures !(ActiveProject(p) <= Parent(ArchivedTask(q, j)))
    ensures ActiveProject(p) <= Parent(ActiveTask(q, j)) ==> p == q
  {
    SafeIdIsNotHidden(p);
    SafeIdIsNotHidden(q);
    assert ActiveProject(p)[1] == p && ActiveTask(q, j)[1] == q && ArchivedTask(q, j)[1] == ".archive";
    assert ArchivedProject(p)[1] == ".archive" && ArchivedProject(p)[2] == "projects" && ArchivedTask(q, j)[2] == "tasks";
    assert Parent(ActiveTask(q, j)) == ["projects", q, "tasks"] && Parent(ArchivedTask(q, j)) == ["projects", ".archive", "tasks", q];
    assert Parent(ActiveTask(q, j))[1] == q;
  }

  /** So does a task operation, which comes back only under an active project. */
  lemma TaskOperationKeepsProjects(t: Dossier, after: Dossier, archiving: bool, q: string, j: string, p: string)
    requires SafeId(p) && SafeId(q) && ProjectInOnePlace(t, p)
    requires if archiving then OutcomeOf(t, after, ActiveTask(q, j), ArchivedTask(q, j))
             else OutcomeOf(t, after, ArchivedTask(q, j), ActiveTask(q, j))
    requires !archiving && after != t && after != Locked(t) ==> ActiveProject(q) in Locked(t)
    ensures ProjectInOnePlace(after, p)
  {
    hide Kept;
    TaskDirectoriesApart(p, q, j);
    ProjectDirectoriesApart(p, p);
    LockScaffolds(t);
    assert ActiveProject(p) != LOCK && ArchivedProject(p) != LOCK && !(ArchivedProject(p) <= ARCHIVE) && !(ActiveProject(p) <= ARCHIVE);
  }

  /** Where a task dossier that is in one place is. */
  function WhereIs(t: Dossier, p: string, k: string): Path {
    if ActiveTask(p, k) in t then ActiveTask(p, k)
    else if ArchivedTask(p, k) in t then ArchivedTask(p, k)
    else TaskInArchivedProject(p, k)
  }

  lemma PlaceOutsideLock(t: Dossier, p: string, k: string)
    requires SafeId(p) && InOnePlace(t, p, k)
    ensures var place := WhereIs(t, p, k);
      && Kept(t, place, Locked(t), place) && WhereIs(Locked(t), p, k) == place
  {
    hide Kept;
    LockKeepsPlaces(t, p, k);
    LockScaffolds(t);
    SafeIdIsNotHidden(p);
    var place := WhereIs(t, p, k);
    assert ActiveTask(p, k)[1] == p && ArchivedTask(p, k)[2] == "tasks" && TaskInArchivedProject(p, k)[2] == "projects";
    assert LOCK[1] == ".archive" && LOCK[2] == ".catalog.lock" && ARCHIVE[1] == ".archive" && |place| >= 4;
    LockKept(t, place);
  }

  lemma PlaceOutsideParents(t: Dossier, made: Path, p: string, k: string)
    requires SafeId(p) && InOnePlace(t, p, k) && InOnePlace(MakeDirs(t, made), p, k)
    requires !(WhereIs(t, p, k) <= made)
    ensures var place := WhereIs(t, p, k);
      && Kept(t, place, MakeDirs(t, made), place) && WhereIs(MakeDirs(t, made), p, k) == place
  {
    hide Kept;
    MadeKept(t, made, WhereIs(t, p, k));
  }

  lemma TaskMoveKeepsContents(t: Dossier, after: Dossier, archiving: bool, q: string, j: string, p: string, k: string)
    requires SafeId(p) && SafeId(q) && InOnePlace(t, p, k) && InOnePlace(after, p, k)
    requires if archiving then Relocated(t, after, ActiveTask(q, j), ArchivedTask(q, j))
             else Relocated(t, after, ArchivedTask(q, j), ActiveTask(q, j))
    ensures Kept(t, WhereIs(t, p, k), after, WhereIs(after, p, k))
  {
    hide Kept, Elsewhere, Free, InOnePlace;
    var (source, target) :=
      if archiving then (ActiveTask(q, j), ArchivedTask(q, j)) else (ArchivedTask(q, j), ActiveTask(q, j));
    var place := WhereIs(t, p, k);
    MovedPlace(t, after, source, target, p, k);
    PlacesApart(p, k, q, j);
    PlacesApart(q, j, p, k);
    if place != source {
      ElsewhereKept(t, after, source, target, place);
    }
  }

  /** A dossier that is moved is then where it was moved to, and any other where it was. */
  lemma MovedPlace(t: Dossier, after: Dossier, source: Path, target: Path, p: string, k: string)
    requires target != [] && Relocated(t, after, source, target) && InOnePlace(t, p, k) && InOnePlace(after, p, k)
    ensures WhereIs(t, p, k) in t && WhereIs(after, p, k) in after
    ensures forall place :: place in {ActiveTask(p, k), ArchivedTask(p, k), TaskInArchivedProject(p, k)} && place in after ==>
      place == WhereIs(after, p, k)
    ensures WhereIs(t, p, k) != target
    ensures var place := WhereIs(t, p, k);
      !Within(place, source) && !Within(place, target) ==> place in after
  {
    hide Kept;
    assert Within(target, target);
  }

  lemma ProjectMoveKeepsContents(t: Dossier, after: Dossier, archiving: bool, q: string, p: string, k: string)
    requires SafeId(p) && SafeId(q) && SafeId(k) && InOnePlace(t, p, k) && InOnePlace(after, p, k)
    requires if archiving then Relocated(t, after, ActiveProject(q), ArchivedProject(q))
             else Relocated(t, after, ArchivedProject(q), ActiveProject(q))
    ensures Kept(t, WhereIs(t, p, k), after, WhereIs(after, p, k))
  {
    hide Kept, Elsewhere, InOnePlace;
    var (source, target) :=
      if archiving then (ActiveProject(q), ArchivedProject(q)) else (ArchivedProject(q), ActiveProject(q));
    var place := WhereIs(t, p, k);
    MovedPlace(t, after, source, target, p, k);
    ProjectPlacesApart(p, k, q);
    if Within(place, source) {
      assert place == source + ["tasks", k] && target + ["tasks", k] in after;
      assert k != HISTORY by {
        assert IdPart(k[0]) && HISTORY[0] == '.';
      }
      KeptBelow(t, source, after, target, k);
    } else {
      assert !Within(place, target);
      ElsewhereKept(t, after, source, target, place);
    }
  }

  /** Any operation, whatever becomes of it, keeps the contents of every task dossier. */
  lemma OperationKeepsContents(
    t: Dossier, after: Dossier, archiving: bool, task: Option<string>, q: string, p: string, k: string)
    requires SafeId(p) && SafeId(q) && SafeId(k) && InOnePlace(t, p, k)
    requires
      var (active, archived) := if task.Some? then (ActiveTask(q, task.value), ArchivedTask(q, task.value))
                                else (ActiveProject(q), ArchivedProject(q));
      if archiving then OutcomeOf(t, after, active, archived) else OutcomeOf(t, after, archived, active)
    ensures InOnePlace(after, p, k) && Kept(t, WhereIs(t, p, k), after, WhereIs(after, p, k))
  {
    hide Kept, InOnePlace, WhereIs, Relocated, Locked, MakeDirs;
    var (active, archived) := if task.Some? then (ActiveTask(q, task.value), ArchivedTask(q, task.value))
                              else (ActiveProject(q), ArchivedProject(q));
    var target := if archiving then archived else active;
    var source := if archiving then active else archived;
    var locked := Locked(t);
    LockKeepsPlaces(t, p, k);
    PlaceOutsideLock(t, p, k);
    if task.Some? {
      TaskOperationKeepsPlaces(t, after, archiving, q, task.value, p, k);
    } else {
      ProjectOperationKeepsPlaces(t, after, archiving, q, p, k);
    }
    var place := WhereIs(t, p, k);
    if after == t {
      KeptSelf(t, place);
    } else if after == locked {
    } else if after == MakeDirs(locked, Parent(target)) {
      ParentsBelow(locked, task, q, p, k);
      PlaceOutsideParents(locked, Parent(target), p, k);
      KeptThen(t, place, locked, place, after, place);
    } else {
      assert Relocated(locked, after, source, target);
      if task.Some? {
        TaskMoveKeepsContents(locked, after, archiving, q, task.value, p, k);
      } else {
        ProjectMoveKeepsContents(locked, after, archiving, q, p, k);
      }
      KeptThen(t, place, locked, place, after, WhereIs(after, p, k));
    }
  }

  lemma KeptSelf(t: Dossier, place: Path)
    ensures Kept(t, place, t, place)
  {
  }

  lemma ParentsBelow(t: Dossier, task: Option<string>, q: string, p: string, k: string)
    requires SafeId(p) && SafeId(q) && InOnePlace(t, p, k)
    ensures var place := WhereIs(t, p, k);
      var (active, archived) := if task.Some? then (ActiveTask(q, task.value), ArchivedTask(q, task.value))
                                else (ActiveProject(q), ArchivedProject(q));
      !(place <= Parent(active)) && !(place <= Parent(archived))
  {
    if task.Some? {
      PlacesApart(p, k, q, task.value);
    } else {
      ProjectPlacesApart(p, k, q);
    }
  }

  // ----- The files of a project outside its tasks -----

  /** What stood at `place`, but for its tasks, stands at `now`. */
  ghost predicate KeptAside(t: Dossier, place: Path, after: Dossier, now: Path) {
    forall rel :: Ordinary(rel) && !(["tasks"] <= rel) ==> SameAt(t, place + rel, after, now + rel)
  }

  lemma KeptAsideAt(t: Dossier, place: Path, after: Dossier, now: Path, rel: Path)
    requires KeptAside(t, place, after, now)
    ensures Ordinary(rel) && !(["tasks"] <= rel) ==> SameAt(t, place + rel, after, now + rel)
  {
  }

  lemma KeptAsideFrom(t: Dossier, place: Path, after: Dossier, now: Path)
    requires forall rel :: Ordinary(rel) && !(["tasks"] <= rel) ==> SameAt(t, place + rel, after, now + rel)
    ensures KeptAside(t, place, after, now)
  {
  }

  lemma KeptAsideThen(t: Dossier, a: Path, u: Dossier, b: Path, v: Dossier, c: Path)
    requires KeptAside(t, a, u, b) && KeptAside(u, b, v, c)
    ensures KeptAside(t, a, v, c)
  {
    hide KeptAside;
    forall rel | Ordinary(rel) && !(["tasks"] <= rel)
      ensures SameAt(t, a + rel, v, c + rel)
    {
      KeptAsideAt(t, a, u, b, rel);
      KeptAsideAt(u, b, v, c, rel);
    }
    KeptAsideFrom(t, a, v, c);
  }

  lemma KeptIsKeptAside(t: Dossier, place: Path, after: Dossier, now: Path)
    requires Kept(t, place, after, now)
    ensures KeptAside(t, place, after, now)
  {
  }

  /** Where a project directory that is in one place is. */
  function WhereProject(t: Dossier, p: string): Path {
    if ActiveProject(p) in t then ActiveProject(p) else ArchivedProject(p)
  }

  lemma ProjectOutsideLock(t: Dossier, p: string)
    requires SafeId(p) && ProjectInOnePlace(t, p)
    ensures ProjectInOnePlace(Locked(t), p) && WhereProject(Locked(t), p) == WhereProject(t, p)
    ensures WhereProject(t, p) in t && Kept(t, WhereProject(t, p), Locked(t), WhereProject(t, p))
  {
    hide Kept;
    ProjectDirectoriesApart(p, p);
    LockScaffolds(t);
    assert ActiveProject(p) != LOCK && ArchivedProject(p) != LOCK && !(ArchivedProject(p) <= ARCHIVE) && !(ActiveProject(p) <= ARCHIVE);
    LockKept(t, WhereProject(t, p));
  }

  lemma CutPrefix(a: Path, rel: Path, b: Path)
    requires a + rel <= a + b
    ensures rel <= b
  {
    forall i | 0 <= i < |rel|
      ensures rel[i] == b[i]
    {
      assert (a + rel)[|a| + i] == rel[i] && (a + b)[|a| + i] == b[i];
    }
  }

  lemma ParentsKeepFiles(t: Dossier, made: Path, p: string)
    requires ProjectInOnePlace(t, p) && ProjectInOnePlace(MakeDirs(t, made), p)
    requires ActiveProject(p) <= made ==> made == ActiveProject(p) + ["tasks"] && ActiveProject(p) in t
    requires !(ArchivedProject(p) <= made)
    ensures WhereProject(MakeDirs(t, made), p) == WhereProject(t, p)
    ensures KeptAside(t, WhereProject(t, p), MakeDirs(t, made), WhereProject(t, p))
  {
    hide KeptAside;
    var place := WhereProject(t, p);
    forall rel | Ordinary(rel) && !(["tasks"] <= rel)
      ensures SameAt(t, place + rel, MakeDirs(t, made), place + rel)
    {
      assert place + [] == place;
      if place + rel <= made {
        LongerPrefix(place, rel, made);
        CutPrefix(place, rel, ["tasks"]);
      }
    }
    KeptAsideFrom(t, place, MakeDirs(t, made), place);
  }

  lemma TaskMoveKeepsFiles(t: Dossier, after: Dossier, archiving: bool, q: string, j: string, p: string)
    requires SafeId(p) && SafeId(q) && ProjectInOnePlace(t, p) && ProjectInOnePlace(after, p)
    requires if archiving then Elsewhere(t, after, ActiveTask(q, j), ArchivedTask(q, j))
             else Elsewhere(t, after, ArchivedTask(q, j), ActiveTask(q, j))
    ensures WhereProject(after, p) == WhereProject(t, p)
    ensures KeptAside(t, WhereProject(t, p), after, WhereProject(t, p))
  {
    hide KeptAside;
    var place := WhereProject(t, p);
    TaskDirectoriesApart(p, q, j);
    assert place in t && !Within(place, ActiveTask(q, j)) && !Within(place, ArchivedTask(q, j));
    forall rel | Ordinary(rel) && !(["tasks"] <= rel)
      ensures SameAt(t, place + rel, after, place + rel)
    {
      AsideOfTasks(t, p, q, j, rel);
    }
    KeptAsideFrom(t, place, after, place);
  }

  /** No other path of a project is in a task's place, or made with one. */
  lemma AsideOfTasks(t: Dossier, p: string, q: string, j: string, rel: Path)
    requires SafeId(p) && SafeId(q) && !(["tasks"] <= rel) && ProjectInOnePlace(t, p)
    ensures var path := WhereProject(t, p) + rel;
      && !Within(path, ActiveTask(q, j)) && !Within(path, ArchivedTask(q, j))
      && (path <= Parent(ActiveTask(q, j)) || path <= Parent(ArchivedTask(q, j)) ==> path in t)
  {
    SafeIdIsNotHidden(p);
    SafeIdIsNotHidden(q);
    TaskDirectoriesApart(p, q, j);
    var place := WhereProject(t, p);
    var path := place + rel;
    assert Parent(ActiveTask(q, j)) == ["projects", q, "tasks"];
    assert place + [] == place;
    if place == ActiveProject(p) {
      assert path[1] == p && ArchivedTask(q, j)[1] == ".archive";
      assert |path| > 2 ==> path[2] == rel[0];
      assert ActiveTask(q, j)[2] == "tasks";
    } else {
      assert path[1] == ".archive" && path[2] == "projects" && ArchivedTask(q, j)[2] == "tasks" && ActiveTask(q, j)[1] == q;
    }
  }

  /** A task operation keeps the files of every project outside its tasks. */
  lemma TaskOperationKeepsFiles(t: Dossier, after: Dossier, archiving: bool, q: string, j: string, p: string)
    requires SafeId(p) && SafeId(q) && ProjectInOnePlace(t, p)
    requires if archiving then OutcomeOf(t, after, ActiveTask(q, j), ArchivedTask(q, j))
             else OutcomeOf(t, after, ArchivedTask(q, j), ActiveTask(q, j))
    requires !archiving && after != t && after != Locked(t) ==> ActiveProject(q) in Locked(t)
    ensures KeptAside(t, WhereProject(t, p), after, WhereProject(after, p))
  {
    hide Kept, KeptAside, WhereProject, Elsewhere, Locked, MakeDirs, ProjectInOnePlace, SafeId, Free;
    var locked, place := Locked(t), WhereProject(t, p);
    ProjectOutsideLock(t, p);
    KeptIsKeptAside(t, place, locked, place);
    TaskOperationKeepsProjects(t, after, archiving, q, j, p);
    if after == t {
      KeptSelf(t, place);
      KeptIsKeptAside(t, place, t, place);
    } else if after != locked {
      var target := if archiving then ArchivedTask(q, j) else ActiveTask(q, j);
      if after == MakeDirs(locked, Parent(target)) {
        TaskParents(p, q, j);
        ParentsKeepFiles(locked, Parent(target), p);
      } else {
        TaskMoveKeepsFiles(locked, after, archiving, q, j, p);
      }
      KeptAsideThen(t, place, locked, place, after, place);
    }
  }

  lemma TaskParents(p: string, q: string, j: string)
    requires SafeId(p) && SafeId(q)
    ensures ActiveProject(p) <= Parent(ActiveTask(q, j)) ==> p == q && Parent(ActiveTask(q, j)) == ActiveProject(p) + ["tasks"]
    ensures !(ActiveProject(p) <= Parent(ArchivedTask(q, j)))
    ensures !(ArchivedProject(p) <= Parent(ActiveTask(q, j))) && !(ArchivedProject(p) <= Parent(ArchivedTask(q, j)))
  {
    TaskDirectoriesApart(p, q, j);
    assert Parent(ActiveTask(q, j)) == ["projects", q, "tasks"];
  }

  /** So does a project operation. */
  lemma ProjectOperationKeepsFiles(t: Dossier, after: Dossier, archiving: bool, q: string, p: string)
    requires SafeId(p) && SafeId(q) && ProjectInOnePlace(t, p)
    requires if archiving then OutcomeOf(t, after, ActiveProject(q), ArchivedProject(q))
             else OutcomeOf(t, after, ArchivedProject(q), ActiveProject(q))
    ensures KeptAside(t, WhereProject(t, p), after, WhereProject(after, p))
  {
    hide Kept, KeptAside, Elsewhere, Locked, MakeDirs, SafeId, Free;
    var locked, place := Locked(t), WhereProject(t, p);
    var (source, target) :=
      if archiving then (ActiveProject(q), ArchivedProject(q)) else (ArchivedProject(q), ActiveProject(q));
    ProjectOutsideLock(t, p);
    ProjectOperationKeepsProjects(t, after, archiving, q, p);
    ProjectDirectoriesApart(p, q);
    ProjectDirectoriesApart(q, p);
    if after == t {
      KeptSelf(t, place);
    } else if after != locked {
      if after == MakeDirs(locked, Parent(target)) {
        MadeKept(locked, Parent(target), place);
      } else if p != q {
        ElsewhereKept(locked, after, source, target, place);
        ElsewhereStays(locked, after, source, target, place);
      } else {
        assert Within(source, source) && Within(target, target);
        GoneFrom(locked, after, source, target);
      }
      KeptThen(t, place, locked, place, after, WhereProject(after, p));
    }
    KeptIsKeptAside(t, place, after, WhereProject(after, p));
  }

  lemma ElsewhereStays(t: Dossier, after: Dossier, source: Path, target: Path, place: Path)
    requires target != [] && Elsewhere(t, after, source, target) && place in t
    requires !Within(place, source) && !Within(place, target)
    ensures place in after
  {
  }

  lemma GoneFrom(t: Dossier, after: Dossier, source: Path, target: Path)
    requires target != [] && Relocated(t, after, source, target)
    ensures source in t && source !in after && target in after && target !in t
  {
    hide Kept;
    assert Within(source, source) && Within(target, target);
  }

  /** The same task dossiers, each in one place and with the same contents, and the same
      project directories, each in one place and with the same files outside its tasks. */
  ghost predicate CatalogKept(t: Dossier, after: Dossier) {
    && (forall p, k :: SafeId(p) && InOnePlace(t, p, k) ==> InOnePlace(after, p, k))
    && (forall p, k :: SafeId(p) && SafeId(k) && InOnePlace(t, p, k) ==> Kept(t, WhereIs(t, p, k), after, WhereIs(after, p, k)))
    && (forall p :: SafeId(p) && ProjectInOnePlace(t, p) ==> ProjectInOnePlace(after, p))
    && (forall p :: SafeId(p) && ProjectInOnePlace(t, p) ==> KeptAside(t, WhereProject(t, p), after, WhereProject(after, p)))
  }

  lemma CatalogKeptSelf(t: Dossier)
    ensures CatalogKept(t, t)
  {
  }

  lemma CatalogKeptThen(t: Dossier, u: Dossier, v: Dossier)
    requires CatalogKept(t, u) && CatalogKept(u, v)
    ensures CatalogKept(t, v)
  {
    hide Kept, KeptAside, InOnePlace, ProjectInOnePlace, WhereIs, WhereProject, SafeId;
    forall p, k | SafeId(p) && SafeId(k) && InOnePlace(t, p, k) {
      KeptThen(t, WhereIs(t, p, k), u, WhereIs(u, p, k), v, WhereIs(v, p, k));
    }
    forall p | SafeId(p) && ProjectInOnePlace(t, p) {
      KeptAsideThen(t, WhereProject(t, p), u, WhereProject(u, p), v, WhereProject(v, p));
    }
  }

  /** No inventory changes, wherever the dossier is. */
  lemma CatalogKeepsInventories(stamp: Content -> Stamp, t: Dossier, after: Dossier, p: string, k: string)
    requires CatalogKept(t, after) && SafeId(p) && SafeId(k) && InOnePlace(t, p, k)
    ensures InventoryOf(stamp, Subtree(after, WhereIs(after, p, k))) == InventoryOf(stamp, Subtree(t, WhereIs(t, p, k)))
  {
    KeptInventory(stamp, t, WhereIs(t, p, k), after, WhereIs(after, p, k));
  }

  lemma TaskOperationKeeps(t: Dossier, after: Dossier, archiving: bool, q: string, j: string)
    requires SafeId(q)
    requires if archiving then OutcomeOf(t, after, ActiveTask(q, j), ArchivedTask(q, j))
             else OutcomeOf(t, after, ArchivedTask(q, j), ActiveTask(q, j))
    requires !archiving && after != t && after != Locked(t) ==> ActiveProject(q) in Locked(t)
    ensures CatalogKept(t, after)
  {
    hide Kept, KeptAside, InOnePlace, WhereIs, WhereProject, SafeId, OutcomeOf, Locked, ProjectInOnePlace;
    forall p, k | SafeId(p) && InOnePlace(t, p, k) {
      TaskOperationKeepsPlaces(t, after, archiving, q, j, p, k);
    }
    forall p, k | SafeId(p) && SafeId(k) && InOnePlace(t, p, k) {
      OperationKeepsContents(t, after, archiving, Some(j), q, p, k);
    }
    forall p | SafeId(p) && ProjectInOnePlace(t, p) {
      TaskOperationKeepsProjects(t, after, archiving, q, j, p);
    }
    forall p | SafeId(p) && ProjectInOnePlace(t, p) {
      TaskOperationKeepsFiles(t, after, archiving, q, j, p);
    }
  }

  lemma ProjectOperationKeeps(t: Dossier, after: Dossier, archiving: bool, q: string)
    requires SafeId(q)
    requires if archiving then OutcomeOf(t, after, ActiveProject(q), ArchivedProject(q))
             else OutcomeOf(t, after, ArchivedProject(q), ActiveProject(q))
    ensures CatalogKept(t, after)
  {
    hide Kept, KeptAside, InOnePlace, WhereIs, WhereProject, SafeId, OutcomeOf, Locked, ProjectInOnePlace;
    forall p, k | SafeId(p) && InOnePlace(t, p, k) {
      ProjectOperationKeepsPlaces(t, after, archiving, q, p, k);
    }
    forall p, k | SafeId(p) && SafeId(k) && InOnePlace(t, p, k) {
      OperationKeepsContents(t, after, archiving, None, q, p, k);
    }
    forall p | SafeId(p) && ProjectInOnePlace(t, p) {
      ProjectOperationKeepsProjects(t, after, archiving, q, p);
    }
    forall p | SafeId(p) && ProjectInOnePlace(t, p) {
      ProjectOperationKeepsFiles(t, after, archiving, q, p);
    }
  }
}
