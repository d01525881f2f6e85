/** Permanent removal (src/execraft/permanent_removal.py): which paths a removal is planned
    to take away, and the deepest-first loop that takes them away. */
module PermanentRemoval {
  import opened Json
  import opened FileTree
  import opened Sequences

  // ----- The meaning of a removal -----

  /** `t` without the subtrees at `roots`. */
  ghost function Pruned<C>(t: Tree<C>, roots: set<Path>): Tree<C> {
    map path | path in t && (forall root :: root in roots ==> !Within(path, root)) :: t[path]
  }

  lemma PrunedNone<C>(t: Tree<C>)
    ensures Pruned(t, {}) == t
  {
  }

  lemma PrunedOnce<C>(t: Tree<C>, roots: set<Path>, root: Path)
    ensures Remove(Pruned(t, roots), root) == Pruned(t, roots + {root})
  {
  }

  lemma PruneAbsent<C>(t: Tree<C>, roots: set<Path>, root: Path)
    requires WellFormed(t) && root !in t
    ensures Pruned(t, roots + {root}) == Pruned(t, roots)
  {
    AbsentIsFree(t, root);
    var a, b := Pruned(t, roots + {root}), Pruned(t, roots);
    forall path | path in b
      ensures path in a
    {
      assert forall r :: r in roots + {root} ==> !Within(path, r);
    }
    assert forall path :: path in a ==> path in b;
  }

  /** What a removal that stops half way leaves: `root` itself stands, and of what was below
      it the subtrees at `gone` (relative paths) are already missing. */
  ghost function Torn<C>(t: Tree<C>, root: Path, gone: set<Path>): Tree<C> {
    Pruned(t, set rel | rel in gone && rel != [] :: root + rel)
  }

  lemma TornLeaves<C>(t: Tree<C>, done: set<Path>, root: Path, gone: set<Path>)
    ensures var after := Torn(Pruned(t, done), root, gone);
      && (forall path :: path in after ==> path in t && after[path] == t[path])
      && forall path :: path in t && (forall r :: r in done + {root} ==> !Within(path, r)) ==> path in after
  {
    var pieces := set rel | rel in gone && rel != [] :: root + rel;
    assert forall piece :: piece in pieces ==> Within(piece, root);
    forall path | path in t && (forall r :: r in done + {root} ==> !Within(path, r))
      ensures path in Torn(Pruned(t, done), root, gone)
    {
      assert !Within(path, root) && forall r :: r in done ==> !Within(path, r);
      assert path in Pruned(t, done);
      forall piece | piece in pieces
        ensures !Within(path, piece)
      {
        WithinThrough(path, piece, root);
      }
    }
  }

  /** At or below one of the paths. */
  ghost predicate Taken(roots: seq<Path>, path: Path) {
    exists root :: root in roots && root <= path
  }

  lemma PrunedLeaves<C>(t: Tree<C>, roots: seq<Path>)
    ensures var after := Pruned(t, Elements(roots));
      && (forall path :: path in after ==> path in t && after[path] == t[path])
      && forall path :: path in t ==> (path !in after <==> Taken(roots, path))
  {
    hide WellFormed;
    forall path | path in t
      ensures path !in Pruned(t, Elements(roots)) <==> Taken(roots, path)
    {
      if root :| root in roots && root <= path {
        assert root in Elements(roots) && Within(path, root);
      }
    }
  }

  lemma TornTaken<C>(t: Tree<C>, after: Tree<C>, done: set<Path>, root: Path, plan: seq<Path>)
    requires done <= Elements(plan) && root in plan
    requires forall path :: path in t && (forall r :: r in done + {root} ==> !Within(path, r)) ==> path in after
    ensures forall path :: path in t && path !in after ==> Taken(plan, path)
  {
    forall path | path in t && path !in after
      ensures Taken(plan, path)
    {
      var r :| r in done + {root} && Within(path, r);
      assert r in Elements(plan);
    }
  }

  // ----- Sorting: deepest first -----

  ghost predicate DeepestFirst(paths: seq<Path>) {
    OrderedBy(Deeper, paths)
  }

  /** No shorter, and another path. */
  predicate Deeper(a: Path, b: Path) {
    |a| >= |b| && a != b
  }

  /** `sorted({...}, key=lambda p: len(p.parts), reverse=True)` */
  method SortDeepestFirst(paths: seq<Path>) returns (sorted: seq<Path>)
    ensures DeepestFirst(sorted) && Elements(sorted) == Elements(paths)
  {
    sorted := [];
    for i := 0 to |paths|
      invariant DeepestFirst(sorted) && Elements(sorted) == Elements(paths[..i])
    {
      assert paths[..i + 1] == paths[..i] + [paths[i]];
      ElementsOn(paths[..i], paths[i]);
      if paths[i] !in sorted {
        InsertOrdered(Deeper, sorted, paths[i]);
        sorted := InsertBy(Deeper, sorted, paths[i]);
      }
    }
    assert paths[..|paths|] == paths;
  }

  /** Those of the paths at which something stands, in order. */
  function Present<C>(t: Tree<C>, paths: seq<Path>): seq<Path> {
    if paths == [] then []
    else Present(t, paths[..|paths| - 1]) + if paths[|paths| - 1] in t then [paths[|paths| - 1]] else []
  }

  lemma {:induction false} PresentElements<C>(t: Tree<C>, paths: seq<Path>)
    ensures forall path :: path in Present(t, paths) <==> path in paths && path in t
    ensures DeepestFirst(paths) ==> DeepestFirst(Present(t, paths))
  {
    if paths != [] {
      var earlier, last := paths[..|paths| - 1], paths[|paths| - 1];
      PresentElements(t, earlier);
      assert paths == earlier + [last];
      if DeepestFirst(paths) {
        assert DeepestFirst(earlier);
        forall j | 0 <= j < |Present(t, earlier)|
          ensures |Present(t, earlier)[j]| >= |last| && Present(t, earlier)[j] != last
        {
          assert Present(t, earlier)[j] in earlier;
          var k :| 0 <= k < |earlier| && earlier[k] == Present(t, earlier)[j];
          assert paths[k] == earlier[k];
        }
      }
    }
  }

  // ----- What a project removal plans -----

  datatype Roots = Roots(control: Path, state: Path, archive: Path)

  /** Everything at and below the three roots is Execraft's own; an external project's
      directory is outside all of them. */
  predicate OutsideRoots(roots: Roots, external: Path) {
    Apart(external, roots.control) && Apart(external, roots.state) && Apart(external, roots.archive)
  }

  predicate InsideRoots(roots: Roots, path: Path) {
    Within(path, roots.control) || Within(path, roots.state) || Within(path, roots.archive)
  }

  function CatalogArchive(roots: Roots): Path {
    roots.control + ["projects", ".archive"]
  }

  /** The candidates of `_task_paths`: dossiers, registries, orchestration state, journals.
      The registry and state locations are computed elsewhere, inside the roots. */
  function TaskCandidates(roots: Roots, active: Path, p: string, k: string, registries: seq<Path>, state: seq<Path>): seq<Path> {
    [active + ["tasks", k],
     CatalogArchive(roots) + ["tasks", p, k],
     CatalogArchive(roots) + ["projects", p, "tasks", k]]
    + registries + state
    + [roots.archive + [p, k], roots.state + ["starts", p, k + ".yaml"]]
  }

  function ProjectCandidates(roots: Roots, p: string): seq<Path> {
    [CatalogArchive(roots) + ["projects", p],
     CatalogArchive(roots) + ["tasks", p],
     roots.control + ["projects", p]]
  }

  lemma WithinThrough(a: Path, b: Path, c: Path)
    ensures Within(a, b) && Within(b, c) ==> Within(a, c)
  {
  }

  lemma InsideIsOutside(roots: Roots, external: Path, path: Path)
    requires OutsideRoots(roots, external) && InsideRoots(roots, path)
    ensures Apart(path, external)
  {
  }

  lemma ProjectCandidatesInside(roots: Roots, p: string)
    ensures forall path :: path in ProjectCandidates(roots, p) ==> InsideRoots(roots, path)
  {
  }

  // ----- The service -----

  /** A registered project outside `control/projects`, by the directory of its descriptor. */
  datatype Registration = Internal | External(directory: Path)

  /** A task of the project, with the locations of its registries and orchestration state. */
  datatype TaskPlaces = TaskPlaces(id: string, registries: seq<Path>, state: seq<Path>)

  function ActiveDirectory(roots: Roots, p: string, registration: Registration): Path {
    match registration
    case Internal => roots.control + ["projects", p]
    case External(directory) => directory
  }

  predicate Spared(registration: Registration, path: Path) {
    registration.External? && Within(path, registration.directory)
  }

  predicate PlannedForTask(roots: Roots, p: string, registration: Registration, task: TaskPlaces, path: Path) {
    && !Spared(registration, path)
    && path in TaskCandidates(roots, ActiveDirectory(roots, p, registration), p, task.id, task.registries, task.state)
  }

  predicate PlannedForProject<C>(t: Tree<C>, roots: Roots, p: string, path: Path) {
    path in ProjectCandidates(roots, p) && (path == roots.control + ["projects", p] ==> IsDir(t, path))
  }

  /** What a project removal plans: existing task paths outside an external project, and
      existing project paths, of which the project directory only if it is one. */
  ghost predicate Planned<C>(t: Tree<C>, roots: Roots, p: string, registration: Registration, tasks: seq<TaskPlaces>, path: Path) {
    && path in t
    && ((exists task :: task in tasks && PlannedForTask(roots, p, registration, task, path))
        || PlannedForProject(t, roots, p, path))
  }

  /** The paths that are the project's own, and the places of one of its tasks. */
  predicate OwnPath(roots: Roots, p: string, path: Path) {
    || path == roots.control + ["projects", ".archive", "projects", p]
    || path == roots.control + ["projects", ".archive", "tasks", p]
    || path == roots.control + ["projects", p]
  }

  predicate TaskPath(roots: Roots, p: string, registration: Registration, task: TaskPlaces, path: Path) {
    || (registration == Internal && path == roots.control + ["projects", p, "tasks", task.id])
    || path == roots.control + ["projects", ".archive", "tasks", p, task.id]
    || path == roots.control + ["projects", ".archive", "projects", p, "tasks", task.id]
    || path in task.registries || path in task.state
    || path == roots.archive + [p, task.id]
    || path == roots.state + ["starts", p, task.id + ".yaml"]
  }

  /** A path is planned exactly when something stands there and it is one of these, of which
      the project directory only if it is a directory, and a task's place only if it is not
      in an external project's directory. */
  lemma PlannedExactly<C>(
    t: Tree<C>, roots: Roots, p: string, registration: Registration, tasks: seq<TaskPlaces>, path: Path)
    ensures Planned(t, roots, p, registration, tasks, path) <==>
      && path in t
      && (|| (OwnPath(roots, p, path) && (path == roots.control + ["projects", p] ==> t[path].Dir?))
          || exists task :: task in tasks && TaskPath(roots, p, registration, task, path)
               && (registration == Internal || !(registration.directory <= path)))
  {
    OwnPaths(roots, p, path);
    forall task
      ensures PlannedForTask(roots, p, registration, task, path) <==>
        TaskPath(roots, p, registration, task, path) && (registration == Internal || !(registration.directory <= path))
    {
      TaskPaths(roots, p, registration, task, path);
    }
    hide PlannedForTask, ProjectCandidates, OwnPath, TaskPath;
  }

  lemma OwnPaths(roots: Roots, p: string, path: Path)
    ensures path in ProjectCandidates(roots, p) <==> OwnPath(roots, p, path)
  {
    assert CatalogArchive(roots) + ["projects", p] == roots.control + ["projects", ".archive", "projects", p];
    assert CatalogArchive(roots) + ["tasks", p] == roots.control + ["projects", ".archive", "tasks", p];
  }

  lemma TaskPaths(roots: Roots, p: string, registration: Registration, task: TaskPlaces, path: Path)
    ensures PlannedForTask(roots, p, registration, task, path) <==>
      TaskPath(roots, p, registration, task, path) && (registration == Internal || !(registration.directory <= path))
  {
    var k := task.id;
    assert CatalogArchive(roots) + ["tasks", p, k] == roots.control + ["projects", ".archive", "tasks", p, k];
    assert CatalogArchive(roots) + ["projects", p, "tasks", k] == roots.control + ["projects", ".archive", "projects", p, "tasks", k];
    assert roots.control + ["projects", p] + ["tasks", k] == roots.control + ["projects", p, "tasks", k];
    if registration.External? {
      assert registration.directory <= registration.directory + ["tasks", k];
    }
  }

  /** At or below a planned path. */
  ghost predicate InPlan<C>(t: Tree<C>, roots: Roots, p: string, registration: Registration, tasks: seq<TaskPlaces>, path: Path) {
    exists root :: Planned(t, roots, p, registration, tasks, root) && root <= path
  }

  lemma InPlanMeans<C>(
    t: Tree<C>, roots: Roots, p: string, registration: Registration, tasks: seq<TaskPlaces>, plan: seq<Path>)
    requires forall path :: path in plan <==> Planned(t, roots, p, registration, tasks, path)
    ensures forall path :: InPlan(t, roots, p, registration, tasks, path) <==> Taken(plan, path)
  {
    hide Planned;
  }

  ghost predicate Rooted(roots: Roots, tasks: seq<TaskPlaces>) {
    forall task, path :: task in tasks && (path in task.registries || path in task.state) ==> InsideRoots(roots, path)
  }

  /** No path planned for an external project is in, at or above its directory. */
  lemma PlannedApart<C>(
    t: Tree<C>, roots: Roots, p: string, registration: Registration, tasks: seq<TaskPlaces>, path: Path)
    requires registration.External? && OutsideRoots(roots, registration.directory) && Rooted(roots, tasks)
    requires Planned(t, roots, p, registration, tasks, path)
    ensures Apart(path, registration.directory)
  {
    var external := registration.directory;
    ProjectCandidatesInside(roots, p);
    if path !in ProjectCandidates(roots, p) {
      var task :| task in tasks && PlannedForTask(roots, p, registration, task, path);
      assert path != external + ["tasks", task.id];
      var archive := CatalogArchive(roots);
      assert archive + ["tasks", p, task.id] == roots.control + ["projects", ".archive", "tasks", p, task.id];
      assert archive + ["projects", p, "tasks", task.id] == roots.control + ["projects", ".archive", "projects", p, "tasks", task.id];
    }
    InsideIsOutside(roots, external, path);
  }

  lemma ApartFrom(external: Path, root: Path, path: Path)
    requires Apart(root, external) && Within(path, external)
    ensures !Within(path, root)
  {
    assert path == external + path[|external|..];
    ApartBelow(external, root, path[|external|..]);
  }

  lemma NoneTaken(external: Path, plan: seq<Path>)
    requires forall root :: root in plan ==> Apart(root, external)
    ensures forall path :: external <= path ==> !Taken(plan, path)
  {
    hide Apart;
    forall path | external <= path
      ensures !Taken(plan, path)
    {
      if root :| root in plan && root <= path {
        ApartFrom(external, root, path);
      }
    }
  }

  class PermanentRemovalService<C> {
    const roots: Roots
    var tree: Tree<C>

    /** `_remove_path`: an OSError may come after part of the directory has been removed. */
    method RemovePath(path: Path, stuck: map<Path, set<Path>>) returns (ok: bool)
      modifies this`tree
      ensures ok <==> path !in stuck
      ensures tree == if ok then Remove(old(tree), path) else Torn(old(tree), path, stuck[path])
    {
      if path in stuck {
        var gone := stuck[path];
        tree := map p | p in tree && (forall rel :: rel in gone && rel != [] ==> !Within(p, path + rel)) :: tree[p];
        return false;
      }
      tree := Remove(tree, path);
      return true;
    }

    /** `_remove_paths`. `stuck` are the paths whose removal raises OSError, with what is gone
        by then. It succeeds unless it meets one; then exactly the planned subtrees are gone,
        and exactly the planned paths that existed at the start are reported, even where some
        contain others. */
    method RemovePaths(paths: seq<Path>, stuck: map<Path, set<Path>>) returns (r: Result<seq<Path>, Path>)
      requires WellFormed(tree)
      modifies this`tree
      ensures r.Ok? <==> forall path :: path in paths && path in old(tree) ==> path !in stuck
      ensures r.Ok? ==> tree == Pruned(old(tree), Elements(paths))
      ensures r.Ok? ==> DeepestFirst(r.value)
      ensures r.Ok? ==> forall path :: path in r.value <==> path in paths && path in old(tree)
      ensures r.Err? ==> r.error in stuck && r.error in paths && r.error in old(tree)
      ensures r.Err? ==> exists done ::
        done <= Elements(paths) - {r.error} && tree == Torn(Pruned(old(tree), done), r.error, stuck[r.error])
    {
      hide Torn, Pruned, Remove, Within, WellFormed, DeepestFirst;
      var unique := SortDeepestFirst(paths);
      assert forall path :: path in paths <==> path in Elements(unique);
      var removed := [];
      PrunedNone(tree);
      assert Elements(unique[..0]) == {};
      for i := 0 to |unique|
        invariant tree == Pruned(old(tree), Elements(unique[..i]))
        invariant removed == Present(old(tree), unique[..i])
        invariant forall j :: 0 <= j < i && unique[j] in old(tree) ==> unique[j] !in stuck
      {
        var path := unique[i];
        assert unique[..i + 1] == unique[..i] + [path] && unique[..i + 1][..i] == unique[..i];
        ElementsOn(unique[..i], path);
        StillThere(old(tree), unique, i);
        if path !in tree {
          PruneAbsent(old(tree), Elements(unique[..i]), path);
        } else {
          var ok := RemovePath(path, stuck);
          if !ok {
            StoppedShort(unique, i);
            return Err(path);
          }
          PrunedOnce(old(tree), Elements(unique[..i]), path);
          removed := removed + [path];
        }
      }
      assert unique[..|unique|] == unique;
      PresentElements(old(tree), unique);
      return Ok(removed);
    }

    /** Append those of `candidates` at which something stands. */
    method Existing(candidates: seq<Path>) returns (found: seq<Path>)
      ensures forall path :: path in found <==> path in candidates && path in tree
    {
      PresentElements(tree, candidates);
      found := [];
      for i := 0 to |candidates|
        invariant found == Present(tree, candidates[..i])
      {
        assert candidates[..i + 1][..i] == candidates[..i];
        if candidates[i] in tree {
          found := found + [candidates[i]];
        }
      }
      assert candidates[..|candidates|] == candidates;
    }

    /** The filter `not self._is_within(path, external_root)`. */
    method Outside(paths: seq<Path>, registration: Registration) returns (kept: seq<Path>)
      ensures forall path :: path in kept <==> path in paths && !Spared(registration, path)
    {
      kept := [];
      for i := 0 to |paths|
        invariant forall path :: path in kept <==> path in paths[..i] && !Spared(registration, path)
      {
        assert paths[..i + 1] == paths[..i] + [paths[i]];
        if !Spared(registration, paths[i]) {
          kept := kept + [paths[i]];
        }
      }
      assert paths[..|paths|] == paths;
    }

    /** The paths of `preview_project`. */
    method PreviewProject(p: string, registration: Registration, tasks: seq<TaskPlaces>) returns (plan: seq<Path>)
      ensures forall path :: path in plan <==> Planned(tree, roots, p, registration, tasks, path)
      ensures forall path :: path in plan ==> path in tree
      ensures forall i, j :: 0 <= i < j < |plan| ==> plan[i] != plan[j]
    {
      hide IsDir, Spared, ActiveDirectory;
      plan := [];
      var active := ActiveDirectory(roots, p, registration);
      for i := 0 to |tasks|
        invariant forall path :: path in plan <==>
          path in tree && exists k :: 0 <= k < i && PlannedForTask(roots, p, registration, tasks[k], path)
      {
        var found := Existing(TaskCandidates(roots, active, p, tasks[i].id, tasks[i].registries, tasks[i].state));
        var kept := Outside(found, registration);
        plan := plan + kept;
      }
      var owned := Existing(ProjectCandidates(roots, p));
      var internal := roots.control + ["projects", p];
      if !IsDir(tree, internal) {
        owned := Without(owned, internal);
      }
      var unique := Deduplicated(plan + owned);
      forall path
        ensures path in unique <==> Planned(tree, roots, p, registration, tasks, path)
      {
        assert path in unique <==> path in Elements(plan + owned);
      }
      return unique;
    }

    /** `remove_project`: the planned paths go, everything else stays, and an external
        project directory is untouched. */
    method RemoveProject(p: string, registration: Registration, tasks: seq<TaskPlaces>, stuck: map<Path, set<Path>>)
      returns (r: Result<seq<Path>, Path>)
      requires WellFormed(tree) && Rooted(roots, tasks)
      modifies this`tree
      ensures forall path :: path in tree ==> path in old(tree) && tree[path] == old(tree)[path]
      ensures r.Ok? <==> forall path :: Planned(old(tree), roots, p, registration, tasks, path) ==> path !in stuck
      ensures r.Err? ==> r.error in stuck && Planned(old(tree), roots, p, registration, tasks, r.error)
      ensures r.Ok? ==> forall path :: path in r.value <==> Planned(old(tree), roots, p, registration, tasks, path)
      ensures r.Ok? ==> forall path :: path in old(tree) ==>
        (path !in tree <==> InPlan(old(tree), roots, p, registration, tasks, path))
      ensures r.Err? ==> forall path :: path in old(tree) && path !in tree ==>
        InPlan(old(tree), roots, p, registration, tasks, path)
      ensures registration.External? && OutsideRoots(roots, registration.directory) ==>
        forall path :: path in old(tree) && registration.directory <= path ==> path in tree
    {
      hide Planned, InPlan, Taken, Apart, OutsideRoots, Rooted, WellFormed, Pruned, Torn, Within, DeepestFirst;
      var plan := PreviewProject(p, registration, tasks);
      InPlanMeans(old(tree), roots, p, registration, tasks, plan);
      r := RemovePaths(plan, stuck);
      assert forall path :: path in Elements(plan) <==> path in plan;
      if r.Ok? {
        PrunedLeaves(old(tree), plan);
      } else {
        ghost var done :| done <= Elements(plan) - {r.error} && tree == Torn(Pruned(old(tree), done), r.error, stuck[r.error]);
        TornLeaves(old(tree), done, r.error, stuck[r.error]);
        TornTaken(old(tree), tree, done, r.error, plan);
      }
      if registration.External? && OutsideRoots(roots, registration.directory) {
        forall root | root in plan {
          PlannedApart(old(tree), roots, p, registration, tasks, root);
        }
        NoneTaken(registration.directory, plan);
      }
    }
  }

  function Without(paths: seq<Path>, path: Path): (kept: seq<Path>)
    ensures forall p :: p in kept <==> p in paths && p != path
  {
    if paths == [] then []
    else
      assert paths == [paths[0]] + paths[1..];
      (if paths[0] == path then [] else [paths[0]]) + Without(paths[1..], path)
  }

  lemma StoppedShort(unique: seq<Path>, i: nat)
    requires DeepestFirst(unique) && i < |unique|
    ensures Elements(unique[..i]) <= Elements(unique) - {unique[i]} && unique[i] in Elements(unique)
  {
  }

  /** A planned path that existed is not taken away before its turn: what goes before it is
      not above it. */
  lemma StillThere<C>(t: Tree<C>, unique: seq<Path>, i: nat)
    requires DeepestFirst(unique) && i < |unique|
    ensures unique[i] in Pruned(t, Elements(unique[..i])) <==> unique[i] in t
  {
  }
}
