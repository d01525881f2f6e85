/** A symlink-free file tree: what stands at each path, a path being its components. */
module FileTree {
  type Path = seq<string>

  datatype Node<+C> = Dir | File(content: C)

  type Tree<C> = map<Path, Node<C>>

  predicate Within(path: Path, root: Path) {
    root <= path
  }

  /** Every entry stands in a directory. */
  ghost predicate WellFormed<C>(t: Tree<C>) {
    forall path :: path in t && path != [] ==> path[..|path| - 1] in t && t[path[..|path| - 1]].Dir?
  }

  function PathsBelow<C>(t: Tree<C>, root: Path): set<Path> {
    set path | path in t && Within(path, root) :: path[|root|..]
  }

  /** The entries at and below `root`, by path relative to it. */
  function Subtree<C>(t: Tree<C>, root: Path): Tree<C> {
    map rel | rel in PathsBelow(t, root) && root + rel in t :: t[root + rel]
  }

  lemma SubtreeAt<C>(t: Tree<C>, root: Path, rel: Path)
    ensures rel in Subtree(t, root) <==> root + rel in t
    ensures rel in Subtree(t, root) ==> Subtree(t, root)[rel] == t[root + rel]
  {
  }

  lemma SubtreeIs<C>(t: Tree<C>, root: Path, d: Tree<C>)
    requires forall rel :: rel in d <==> root + rel in t
    requires forall rel :: rel in d ==> d[rel] == t[root + rel]
    ensures Subtree(t, root) == d
  {
  }

  /** `shutil.rmtree(root)`, or `unlink` of a file. */
  function Remove<C>(t: Tree<C>, root: Path): Tree<C> {
    map path | path in t && !Within(path, root) :: t[path]
  }

  /** Where the entry at `path` comes from when `from` is renamed to `to`. */
  function Origin<C>(t: Tree<C>, from: Path, to: Path, path: Path): Path {
    if Within(path, to) && from + path[|to|..] in t then from + path[|to|..] else path
  }

  predicate Lands<C>(t: Tree<C>, from: Path, to: Path, path: Path) {
    (path in t && !Within(path, from)) || (Within(path, to) && from + path[|to|..] in t)
  }

  function Landed<C>(t: Tree<C>, from: Path, to: Path): set<Path> {
    set path | path in t && Within(path, from) :: to + path[|from|..]
  }

  /** `from.rename(to)` where nothing stands at `to`. */
  function Move<C>(t: Tree<C>, from: Path, to: Path): Tree<C> {
    map path | path in t.Keys + Landed(t, from, to) && Lands(t, from, to, path) :: t[Origin(t, from, to, path)]
  }

  lemma MoveAt<C>(t: Tree<C>, from: Path, to: Path, path: Path)
    ensures path in Move(t, from, to) <==> Lands(t, from, to, path)
    ensures path in Move(t, from, to) ==> Move(t, from, to)[path] == t[Origin(t, from, to, path)]
  {
    if Within(path, to) && from + path[|to|..] in t {
      var source := from + path[|to|..];
      assert Within(source, from) && source[|from|..] == path[|to|..];
      assert path == to + source[|from|..];
    }
  }

  /** `path.mkdir(parents=True, exist_ok=True)` */
  function MakeDirs<C>(t: Tree<C>, path: Path): (made: Tree<C>)
    ensures forall p :: p in made <==> p in t || p <= path
    ensures forall p :: p in made ==> made[p] == if p in t then t[p] else Dir
  {
    var prefixes := set k | 0 <= k <= |path| :: path[..k];
    assert forall p :: p <= path ==> p == path[..|p|];
    (map p | p in prefixes :: Dir) + t
  }

  /** A file is in the way of a directory to be made. */
  predicate Blocked<C>(t: Tree<C>, path: Path) {
    exists k :: 0 <= k <= |path| && path[..k] in t && t[path[..k]].File?
  }

  predicate IsDir<C>(t: Tree<C>, path: Path) {
    path in t && t[path].Dir?
  }

  predicate IsFile<C>(t: Tree<C>, path: Path) {
    path in t && t[path].File?
  }

  /** Neither of two paths is at or below the other. */
  predicate Apart(a: Path, b: Path) {
    !Within(a, b) && !Within(b, a)
  }

  lemma ApartBelow(a: Path, b: Path, rel: Path)
    requires Apart(a, b)
    ensures !Within(a + rel, b) && !Within(b + rel, a)
  {
  }

  /** Nothing stands at or below `path`. */
  predicate Free<C>(t: Tree<C>, path: Path) {
    forall p :: p in t ==> !Within(p, path)
  }

  /** What stands below the two places after a move. */
  lemma Moved<C>(t: Tree<C>, from: Path, to: Path, rel: Path)
    requires Free(t, to) && Apart(from, to)
    ensures to + rel in Move(t, from, to) <==> from + rel in t
    ensures from + rel in t ==> Move(t, from, to)[to + rel] == t[from + rel]
    ensures from + rel !in Move(t, from, to)
  {
  }

  lemma MoveVacates<C>(t: Tree<C>, from: Path, to: Path)
    requires Free(t, to) && Apart(from, to)
    ensures Free(Move(t, from, to), from)
  {
  }

  lemma MovedBackAt<C>(t: Tree<C>, from: Path, to: Path, path: Path)
    requires Free(t, to) && Apart(from, to)
    ensures var back := Move(Move(t, from, to), to, from);
      (path in back <==> path in t) && (path in t ==> back[path] == t[path])
  {
    var there := Move(t, from, to);
    MoveVacates(t, from, to);
    if Within(path, from) {
      var rel := path[|from|..];
      assert path == from + rel;
      Moved(t, from, to, rel);
      Moved(there, to, from, rel);
    } else if Within(path, to) {
      var rel := path[|to|..];
      assert path == to + rel;
      Moved(there, to, from, rel);
    } else {
      MoveAt(t, from, to, path);
      MoveAt(there, to, from, path);
    }
  }

  /** Moving there and back restores every entry. */
  lemma MoveBack<C>(t: Tree<C>, from: Path, to: Path)
    requires Free(t, to) && Apart(from, to)
    ensures Move(Move(t, from, to), to, from) == t
  {
    hide Move, Within;
    var back := Move(Move(t, from, to), to, from);
    forall path
      ensures (path in back <==> path in t) && (path in t ==> back[path] == t[path])
    {
      MovedBackAt(t, from, to, path);
    }
  }

  // ----- Well-formed trees stay well-formed -----

  function Parent(path: Path): Path
    requires path != []
  {
    path[..|path| - 1]
  }

  lemma {:induction false} PrefixPresent<C>(t: Tree<C>, path: Path, k: nat)
    requires WellFormed(t) && path in t && k <= |path|
    ensures path[..k] in t && (k < |path| ==> t[path[..k]].Dir?)
    decreases |path|
  {
    if k == |path| {
      assert path[..k] == path;
    } else {
      PrefixPresent(t, Parent(path), k);
      assert Parent(path)[..k] == path[..k];
    }
  }

  /** If nothing stands at a path, nothing stands below it. */
  lemma AbsentIsFree<C>(t: Tree<C>, path: Path)
    requires WellFormed(t) && path !in t
    ensures Free(t, path)
  {
    forall p | p in t
      ensures !Within(p, path)
    {
      if Within(p, path) {
        assert p[..|path|] == path;
        PrefixPresent(t, p, |path|);
      }
    }
  }

  lemma MakeDirsWellFormed<C>(t: Tree<C>, path: Path)
    requires WellFormed(t) && !Blocked(t, path)
    ensures WellFormed(MakeDirs(t, path)) && IsDir(MakeDirs(t, path), path)
  {
    var made := MakeDirs(t, path);
    forall p | p in made && p != []
      ensures Parent(p) in made && made[Parent(p)].Dir?
    {
      if p <= path {
        assert Parent(p) == path[..|p| - 1];
      }
    }
    assert path == path[..|path|];
  }

  lemma AddWellFormed<C>(t: Tree<C>, path: Path, node: Node<C>)
    requires WellFormed(t) && path != [] && IsDir(t, Parent(path))
    requires node.Dir? || path !in t || t[path].File?
    ensures WellFormed(t[path := node])
  {
  }

  lemma DropFileWellFormed<C>(t: Tree<C>, path: Path)
    requires WellFormed(t) && (path !in t || t[path].File?)
    ensures WellFormed(t - {path})
  {
  }

  lemma WithinParent(path: Path, root: Path)
    requires path != []
    ensures Within(Parent(path), root) ==> Within(path, root)
    ensures Within(path, root) && path != root ==> Within(Parent(path), root)
  {
  }

  lemma MovedParent<C>(t: Tree<C>, from: Path, to: Path, p: Path)
    requires WellFormed(t) && from in t && Free(t, to) && Apart(from, to) && from != [] && to != []
    requires IsDir(t, Parent(to)) && p != [] && Lands(t, from, to, p)
    ensures IsDir(Move(t, from, to), Parent(p))
  {
    hide Move;
    MoveAt(t, from, to, Parent(p));
    if Within(p, to) && p != to {
      var rel := p[|to|..];
      assert p == to + rel && Parent(p) == to + Parent(rel) && Parent(p)[|to|..] == Parent(rel);
      ApartBelow(from, to, rel);
      assert Parent(from + rel) == from + Parent(rel);
    } else {
      WithinParent(p, to);
      WithinParent(p, from);
      assert !Within(p, from);
    }
  }

  lemma MoveWellFormed<C>(t: Tree<C>, from: Path, to: Path)
    requires WellFormed(t) && from in t && Free(t, to) && Apart(from, to) && from != [] && to != []
    requires IsDir(t, Parent(to))
    ensures WellFormed(Move(t, from, to))
  {
    forall p | p in Move(t, from, to) && p != []
      ensures IsDir(Move(t, from, to), Parent(p))
    {
      MoveAt(t, from, to, p);
      MovedParent(t, from, to, p);
    }
  }
}
