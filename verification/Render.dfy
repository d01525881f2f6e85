/** Rendering of the workspace shell (src/execraft/render.py): layered files, the manifest
    that records their hashes, and the later refresh of the OpenCode providers.
    Paths are relative to the workspace root. */
module Render {
  import opened Json
  import opened DeepMerge
  import opened Sequences
  import Text

  /** The hash and the JSON codec, of which only what `Kept` says of single documents is relied on. */
  datatype Tools = Tools(sha: string -> string, dumps: Json -> string, loads: string -> Option<Json>)
  {
    /** The document survives being written to a file and read back. */
    predicate Kept(fields: Fields) {
      loads(dumps(Obj(fields)) + "\n") == Some(Obj(fields))
    }
  }

  type Disk = map<string, string>

  datatype RenderedFile = RenderedFile(relativePath: string, sha256: string, source: string)

  const MANIFEST := ".execraft/generated-manifest.json"
  const OPENCODE := "opencode.json"

  // ----- Files to be written, and their records -----

  datatype File = File(content: string, source: string)

  type Files = map<string, File>

  function Contents(files: Files): Disk {
    map path | path in files :: files[path].content
  }

  function Records(tools: Tools, files: Files): map<string, RenderedFile> {
    map path | path in files :: RenderedFile(path, tools.sha(files[path].content), files[path].source)
  }

  /** The records by path; of two for the same path the later one counts. */
  function ByPath(items: seq<RenderedFile>): map<string, RenderedFile> {
    if items == [] then map[]
    else ByPath(Text.Init(items))[Text.Last(items).relativePath := Text.Last(items)]
  }

  lemma {:induction false} ByPathKeys(items: seq<RenderedFile>)
    ensures forall path :: path in ByPath(items) ==> ByPath(items)[path].relativePath == path
  {
    if items != [] {
      ByPathKeys(Text.Init(items));
    }
  }

  lemma {:induction false} ByPathAppend(a: seq<RenderedFile>, b: seq<RenderedFile>)
    ensures ByPath(a + b) == ByPath(a) + ByPath(b)
  {
    if b == [] {
      assert a + b == a;
    } else {
      ByPathAppend(a, Text.Init(b));
      assert Text.Init(a + b) == a + Text.Init(b) && Text.Last(a + b) == Text.Last(b);
    }
  }

  /** Writing `f` and then `g` is writing `f` overridden by `g`, on disk and in the records. */
  lemma ThenWritten(tools: Tools, disk: Disk, a: seq<RenderedFile>, b: seq<RenderedFile>, f: Files, g: Files)
    requires ByPath(a) == Records(tools, f) && ByPath(b) == Records(tools, g)
    ensures disk + Contents(f) + Contents(g) == disk + Contents(f + g)
    ensures ByPath(a + b) == Records(tools, f + g)
  {
    hide ByPath;
    ByPathAppend(a, b);
    assert Records(tools, f + g) == Records(tools, f) + Records(tools, g);
    ContentsUnion(disk, f, g);
  }

  lemma ContentsUnion(disk: Disk, f: Files, g: Files)
    ensures disk + Contents(f) + Contents(g) == disk + Contents(f + g)
  {
  }

  // ----- _deduplicate -----

  predicate Less(a: string, b: string) {
    b != "" && (a == "" || a[0] < b[0] || (a[0] == b[0] && Less(a[1..], b[1..])))
  }

  lemma {:induction false} LessTransitive(a: string, b: string, c: string)
    requires Less(a, b) && Less(b, c)
    ensures Less(a, c)
  {
    if a != "" && a[0] == b[0] == c[0] {
      LessTransitive(a[1..], b[1..], c[1..]);
    }
  }

  lemma {:induction false} LessTotal(a: string, b: string)
    requires a != b
    ensures Less(a, b) || Less(b, a)
  {
    if a != "" && b != "" && a[0] == b[0] {
      assert a == [a[0]] + a[1..] && b == [b[0]] + b[1..];
      LessTotal(a[1..], b[1..]);
    }
  }

  ghost predicate Ascending(keys: seq<string>) {
    OrderedBy(Less, keys)
  }

  method Sorted(keys: set<string>) returns (sorted: seq<string>)
    ensures Ascending(sorted) && forall key :: key in sorted <==> key in keys
  {
    hide Less;
    forall x, y | x in keys && y in keys && x != y {
      LessTotal(x, y);
    }
    forall x, y, z | x in keys && y in keys && z in keys && Less(x, y) && Less(y, z) {
      LessTransitive(x, y, z);
    }
    sorted := SortSet(Less, keys);
  }

  ghost predicate SortedByPath(items: seq<RenderedFile>) {
    forall i, j :: 0 <= i < j < |items| ==> Less(items[i].relativePath, items[j].relativePath)
  }

  lemma {:induction false} LessIrreflexive(a: string)
    ensures !Less(a, a)
  {
    if a != "" {
      LessIrreflexive(a[1..]);
    }
  }

  lemma {:induction false} PickedByPath(merged: map<string, RenderedFile>, keys: seq<string>, items: seq<RenderedFile>)
    requires |items| == |keys|
    requires forall i :: 0 <= i < |keys| ==>
      keys[i] in merged && items[i] == merged[keys[i]] && items[i].relativePath == keys[i]
    ensures ByPath(items) == map key | key in merged && key in keys :: merged[key]
  {
    if items != [] {
      PickedByPath(merged, Text.Init(keys), Text.Init(items));
      assert keys == Text.Init(keys) + [Text.Last(keys)];
    }
  }

  /** Later records win, and the rest are put in order of path. */
  method Deduplicate(items: seq<RenderedFile>) returns (unique: seq<RenderedFile>)
    ensures ByPath(unique) == ByPath(items) && SortedByPath(unique)
  {
    var merged: map<string, RenderedFile> := map[];
    for i := 0 to |items|
      invariant merged == ByPath(items[..i])
    {
      assert Text.Init(items[..i + 1]) == items[..i];
      merged := merged[items[i].relativePath := items[i]];
    }
    assert items[..|items|] == items;
    ByPathKeys(items);
    var keys := Sorted(merged.Keys);
    unique := seq(|keys|, i requires 0 <= i < |keys| && keys[i] in merged => merged[keys[i]]);
    PickedByPath(merged, keys, unique);
    assert ByPath(unique) == merged;
  }

  // ----- Layers of files -----

  type Dir = map<string, string>

  /** A directory of sources, if there is one, and the label of what comes from it. */
  datatype Layer = Layer(files: Option<Dir>, source: string)

  function PathOf(prefix: string, name: string, suffix: string): string {
    prefix + name + suffix
  }

  function NameOf(prefix: string, path: string, suffix: string): string
    requires |path| >= |prefix| + |suffix|
  {
    path[|prefix|..|path| - |suffix|]
  }

  lemma NameOfPath(prefix: string, name: string, suffix: string)
    ensures NameOf(prefix, PathOf(prefix, name, suffix), suffix) == name
  {
  }

  function Paths(prefix: string, names: set<string>, suffix: string): set<string> {
    set name | name in names :: PathOf(prefix, name, suffix)
  }

  function Named(prefix: string, files: Dir, suffix: string, source: string): Files {
    map path | path in Paths(prefix, files.Keys, suffix)
      && |path| >= |prefix| + |suffix| && NameOf(prefix, path, suffix) in files ::
      File(files[NameOf(prefix, path, suffix)], source)
  }

  lemma NamedKeys(prefix: string, files: Dir, suffix: string, source: string)
    ensures Named(prefix, files, suffix, source).Keys == Paths(prefix, files.Keys, suffix)
    ensures forall name :: name in files ==>
      PathOf(prefix, name, suffix) in Named(prefix, files, suffix, source)
      && Named(prefix, files, suffix, source)[PathOf(prefix, name, suffix)] == File(files[name], source)
  {
  }

  lemma NamedOneMore(prefix: string, files: Dir, suffix: string, source: string, name: string, content: string)
    ensures Named(prefix, files[name := content], suffix, source)
         == Named(prefix, files, suffix, source) + map[PathOf(prefix, name, suffix) := File(content, source)]
  {
    var more := files[name := content];
    NamedKeys(prefix, files, suffix, source);
    NamedKeys(prefix, more, suffix, source);
    hide Named, PathOf;
    var left := Named(prefix, more, suffix, source);
    var right := Named(prefix, files, suffix, source) + map[PathOf(prefix, name, suffix) := File(content, source)];
    assert more.Keys == files.Keys + {name};
    forall path | path in Paths(prefix, more.Keys, suffix)
      ensures path in right && path in left && left[path] == right[path]
    {
      var n :| n in more && path == PathOf(prefix, n, suffix);
      if n != name {
        Distinguished(prefix, n, name, suffix);
      }
    }
    forall path | path in right
      ensures path in left
    {
    }
  }

  lemma Distinguished(prefix: string, a: string, b: string, suffix: string)
    requires a != b
    ensures PathOf(prefix, a, suffix) != PathOf(prefix, b, suffix)
  {
    NameOfPath(prefix, a, suffix);
    NameOfPath(prefix, b, suffix);
  }

  /** What a list of layers amounts to: a later layer overrides an earlier one. */
  function Layered(prefix: string, layers: seq<Layer>, suffix: string): Files {
    if layers == [] then map[]
    else
      Layered(prefix, Text.Init(layers), suffix)
      + match Text.Last(layers).files
        case Some(files) => Named(prefix, files, suffix, Text.Last(layers).source)
        case None => map[]
  }

  lemma TwoLayers(prefix: string, builtin: Dir, overlay: Dir, suffix: string)
    ensures Layered(prefix, [Layer(Some(builtin), "builtin"), Layer(Some(overlay), "project")], suffix)
         == Named(prefix, builtin, suffix, "builtin") + Named(prefix, overlay, suffix, "project")
  {
    hide Named;
    var lower, upper := Layer(Some(builtin), "builtin"), Layer(Some(overlay), "project");
    assert Text.Init([lower, upper]) == [lower] && Text.Init([lower]) == [];
    assert Layered(prefix, [lower], suffix) == map[] + Named(prefix, builtin, suffix, "builtin");
  }

  /** A project's file stands in for the built-in file of the same name, and no other. */
  lemma OverlayWins(prefix: string, builtin: Dir, overlay: Dir, suffix: string, name: string)
    requires name in builtin || name in overlay
    ensures var files := Layered(prefix, [Layer(Some(builtin), "builtin"), Layer(Some(overlay), "project")], suffix);
      && PathOf(prefix, name, suffix) in files
      && files[PathOf(prefix, name, suffix)]
         == if name in overlay then File(overlay[name], "project") else File(builtin[name], "builtin")
  {
    TwoLayers(prefix, builtin, overlay, suffix);
    NamedKeys(prefix, builtin, suffix, "builtin");
    NamedKeys(prefix, overlay, suffix, "project");
    hide Named, PathOf, Layered;
    if name !in overlay {
      forall other | other in overlay
        ensures PathOf(prefix, other, suffix) != PathOf(prefix, name, suffix)
      {
        Distinguished(prefix, other, name, suffix);
      }
      assert PathOf(prefix, name, suffix) !in Paths(prefix, overlay.Keys, suffix);
    }
  }

  // ----- The OpenCode configuration -----

  datatype RenderError =
    | Unowned
    | MissingDirectory
    | InvalidOverlay
    | InvalidProvider
    | DuplicateProviders(ids: set<string>)
    | InvalidSettings

  const SCHEMA := Str("https://opencode.ai/config.json")

  function GeneratedConfig(permission: Json, generated: Fields): Fields {
    var config: Fields := map["$schema" := SCHEMA, "permission" := permission];
    if generated == map[] then config else config["provider" := Obj(generated)]
  }

  function OpencodeConfig(permission: Json, generated: Fields, overlay: Option<Option<Json>>): Result<Fields, RenderError> {
    match overlay
    case None => Ok(GeneratedConfig(permission, generated))
    case Some(None) => Err(InvalidOverlay)
    case Some(Some(json)) =>
      if !json.Obj? then Err(InvalidOverlay)
      else
        var kept := json.fields - {"$schema", "permission"};
        var providers := if "provider" in kept then kept["provider"] else Obj(map[]);
        if !providers.Obj? then Err(InvalidProvider)
        else if generated.Keys * providers.fields.Keys != {} then
          Err(DuplicateProviders(generated.Keys * providers.fields.Keys))
        else Ok(Merge(GeneratedConfig(permission, generated), kept))
  }

  /** The provider blocks of a configuration. */
  function Providers(config: Fields): Fields {
    match Get(config, "provider") case Obj(blocks) => blocks case _ => map[]
  }

  /** An accepted overlay adds to what is generated and changes none of it: the schema, the
      permissions and every generated provider block come out as they went in. */
  lemma OverlayAddsOnly(permission: Json, generated: Fields, overlay: Fields)
    requires OpencodeConfig(permission, generated, Some(Some(Obj(overlay)))).Ok?
    ensures var config := OpencodeConfig(permission, generated, Some(Some(Obj(overlay)))).value;
      && Get(config, "$schema") == SCHEMA
      && "permission" in config && config["permission"] == permission
      && Providers(config) == generated + Providers(overlay)
      && Providers(config) == Providers(overlay) + generated
      && (forall key :: key !in {"$schema", "permission", "provider"} ==>
            (key in config <==> key in overlay) && (key in config ==> config[key] == overlay[key]))
  {
    var kept := overlay - {"$schema", "permission"};
    var config := Merge(GeneratedConfig(permission, generated), kept);
    assert "$schema" !in kept && "permission" !in kept;
    assert "provider" in kept <==> "provider" in overlay;
    ProvidersMerged(permission, generated, kept);
    assert Providers(kept) == Providers(overlay);
    hide Providers;
  }

  lemma ProvidersMerged(permission: Json, generated: Fields, kept: Fields)
    requires "provider" in kept ==> kept["provider"].Obj? && generated.Keys * kept["provider"].fields.Keys == {}
    ensures var config := Merge(GeneratedConfig(permission, generated), kept);
      Providers(config) == generated + Providers(kept) && Providers(config) == Providers(kept) + generated
  {
    var config := Merge(GeneratedConfig(permission, generated), kept);
    if "provider" in kept {
      var blocks := kept["provider"].fields;
      if generated != map[] {
        DisjointMerge(generated, blocks);
        assert config["provider"] == Obj(Merge(generated, blocks));
      }
      DisjointUnion(generated, blocks);
    }
  }

  lemma DisjointMerge(a: Fields, b: Fields)
    requires a.Keys * b.Keys == {}
    ensures Merge(a, b) == a + b
  {
    forall key | key in a
      ensures key !in b
    {
      assert key !in a.Keys * b.Keys;
    }
  }

  lemma DisjointUnion(a: Fields, b: Fields)
    requires a.Keys * b.Keys == {}
    ensures a + b == b + a
  {
    forall key | key in a
      ensures key !in b
    {
      assert key !in a.Keys * b.Keys;
    }
  }

  // ----- What a project renders to -----

  datatype Provider = Provider(agents: Option<Dir>, commands: Option<Dir>)

  datatype OpencodeOverlay = OpencodeOverlay(files: Provider, registry: Fields, config: Option<string>)

  datatype ClaudeOverlay = ClaudeOverlay(files: Provider, settings: Option<string>, instructions: Option<string>)

  /** The generated text of the editor files. */
  datatype Editor = Editor(taskId: string, settings: string, tasks: string, extensions: string, workspace: string)

  datatype Project = Project(
    builtinSkills: Option<Dir>,
    skills: Option<Dir>,
    builtinOpencode: Provider,
    opencode: Option<OpencodeOverlay>,
    builtinClaude: Provider,
    claude: Option<ClaudeOverlay>,
    codex: Option<string>,
    instructions: Option<string>,
    devcontainer: Option<Option<Dir>>,
    editor: Option<Editor>,
    permission: Json,
    claudeMode: string)

  function Uncounted(dir: Option<Dir>): Option<Dir> {
    match dir case Some(files) => Some(files - {".gitkeep"}) case None => None
  }

  function ProviderFiles(prefix: string, builtin: Option<Dir>, overlay: Option<Dir>): Files {
    Layered(prefix, [Layer(Uncounted(builtin), "builtin"), Layer(Uncounted(overlay), "project")], "")
  }

  function SkillFiles(project: Project): Result<Files, RenderError> {
    if project.skills == None then Err(MissingDirectory)
    else Ok(Layered(".agents/skills/",
              [Layer(project.builtinSkills, "builtin"), Layer(project.skills, "project")], "/SKILL.md"))
  }

  function OpencodeFiles(tools: Tools, project: Project): Result<Files, RenderError> {
    if project.opencode == None then Err(MissingDirectory)
    else
      var overlay := project.opencode.value;
      var parsed := match overlay.config case Some(text) => Some(tools.loads(text)) case None => None;
      match OpencodeConfig(project.permission, overlay.registry, parsed)
      case Err(error) => Err(error)
      case Ok(config) =>
        Ok(ProviderFiles(".opencode/agents/", project.builtinOpencode.agents, overlay.files.agents)
           + ProviderFiles(".opencode/commands/", project.builtinOpencode.commands, overlay.files.commands)
           + map[OPENCODE := File(tools.dumps(Obj(config)) + "\n", "generated")]
           + map[".opencode/.gitignore" := File(GITIGNORE, "generated")])
  }

  const GITIGNORE := "node_modules\npackage.json\npackage-lock.json\nbun.lock\n"

  function ClaudeSettings(tools: Tools, overlay: ClaudeOverlay, mode: string): Result<Fields, RenderError> {
    var parsed := match overlay.settings case Some(text) => tools.loads(text) case None => Some(Obj(map[]));
    match parsed
    case Some(Obj(settings)) => Ok(Merge(settings, map["permissions" := Obj(map["defaultMode" := Str(mode)])]))
    case _ => Err(InvalidSettings)
  }

  function ClaudeFiles(tools: Tools, project: Project): Result<Files, RenderError> {
    if project.claude == None then Err(MissingDirectory)
    else
      var overlay := project.claude.value;
      match ClaudeSettings(tools, overlay, project.claudeMode)
      case Err(error) => Err(error)
      case Ok(settings) =>
        Ok(ProviderFiles(".claude/agents/", project.builtinClaude.agents, overlay.files.agents)
           + ProviderFiles(".claude/commands/", project.builtinClaude.commands, overlay.files.commands)
           + map[".claude/settings.json" := File(tools.dumps(Obj(settings)) + "\n", "generated")]
           + map["CLAUDE.md" := ClaudeInstructions(overlay)])
  }

  function ClaudeInstructions(overlay: ClaudeOverlay): File {
    match overlay.instructions case Some(text) => File(text, "project") case None => File("@AGENTS.md\n", "generated")
  }

  function CodexFiles(project: Project): Result<Files, RenderError> {
    match project.codex
    case Some(text) => Ok(map[".codex/config.toml" := File(text, "generated")])
    case None => Err(MissingDirectory)
  }

  const SHELL_NOTE :=
    "# Generated development workspace\n\nThis shell is generated by `execraft`; edit product source only in registered worktrees.\n"

  function InstructionFiles(project: Project): Files {
    match project.instructions
    case Some(text) => map["AGENTS.md" := File(text, "project")]
    case None => map["AGENTS.md" := File(SHELL_NOTE, "generated")]
  }

  function DevcontainerFiles(project: Project): Result<Files, RenderError> {
    match project.devcontainer
    case None => Ok(map[])
    case Some(None) => Err(MissingDirectory)
    case Some(Some(files)) => Ok(Named(".devcontainer/", files, "", "project"))
  }

  function EditorFiles(project: Project): Files {
    match project.editor
    case None => map[]
    case Some(editor) =>
      map[".vscode/settings.json" := File(editor.settings, "generated")]
      + map[".vscode/tasks.json" := File(editor.tasks, "generated")]
      + map[".vscode/extensions.json" := File(editor.extensions, "generated")]
      + map[editor.taskId + ".code-workspace" := File(editor.workspace, "generated")]
  }

  function Then(first: Files, second: Result<Files, RenderError>): Result<Files, RenderError> {
    match second case Ok(files) => Ok(first + files) case Err(error) => Err(error)
  }

  /** Everything `render_workspace` renders but the manifest, or the first error. */
  function WorkspaceFiles(tools: Tools, project: Project): Result<Files, RenderError> {
    var skills := SkillFiles(project);
    if skills.Err? then skills else
    var opencode := Then(skills.value, OpencodeFiles(tools, project));
    if opencode.Err? then opencode else
    var claude := Then(opencode.value, ClaudeFiles(tools, project));
    if claude.Err? then claude else
    var codex := Then(claude.value, CodexFiles(project));
    if codex.Err? then codex else
    var devcontainer := Then(codex.value + InstructionFiles(project), DevcontainerFiles(project));
    if devcontainer.Err? then devcontainer else
    Ok(devcontainer.value + EditorFiles(project))
  }

  // ----- The manifest is never one of the files it lists -----

  /** No rendered path has the manifest's shape. */
  predicate Elsewhere(path: string) {
    |path| > 1 && !(path[0] == '.' && path[1] == 'e' && path[|path| - 1] == 'n')
  }

  ghost predicate AllElsewhere(files: Files) {
    forall path :: path in files ==> Elsewhere(path)
  }

  lemma {:induction false} LayeredElsewhere(prefix: string, layers: seq<Layer>, suffix: string)
    requires |prefix| > 1 && prefix[0] == '.' && prefix[1] != 'e'
    ensures AllElsewhere(Layered(prefix, layers, suffix))
  {
    if layers != [] {
      LayeredElsewhere(prefix, Text.Init(layers), suffix);
      match Text.Last(layers).files
      case Some(files) => NamedElsewhere(prefix, files, suffix, Text.Last(layers).source);
      case None =>
    }
  }

  lemma NamedElsewhere(prefix: string, files: Dir, suffix: string, source: string)
    requires |prefix| > 1 && prefix[0] == '.' && prefix[1] != 'e'
    ensures AllElsewhere(Named(prefix, files, suffix, source))
  {
  }

  lemma FixedElsewhere()
    ensures Elsewhere(OPENCODE) && Elsewhere(".opencode/.gitignore") && Elsewhere(".claude/settings.json")
    ensures Elsewhere("CLAUDE.md") && Elsewhere("AGENTS.md") && Elsewhere(".codex/config.toml")
  {
  }

  lemma EditorElsewhere(project: Project)
    ensures AllElsewhere(EditorFiles(project))
  {
  }

  lemma OpencodeElsewhere(tools: Tools, project: Project)
    requires OpencodeFiles(tools, project).Ok?
    ensures AllElsewhere(OpencodeFiles(tools, project).value)
  {
    hide Elsewhere, OpencodeConfig, Layered;
    var b, o := project.builtinOpencode, project.opencode.value.files;
    LayeredElsewhere(".opencode/agents/", [Layer(Uncounted(b.agents), "builtin"), Layer(Uncounted(o.agents), "project")], "");
    LayeredElsewhere(".opencode/commands/", [Layer(Uncounted(b.commands), "builtin"), Layer(Uncounted(o.commands), "project")], "");
    FixedElsewhere();
  }

  lemma ClaudeElsewhere(tools: Tools, project: Project)
    requires ClaudeFiles(tools, project).Ok?
    ensures AllElsewhere(ClaudeFiles(tools, project).value)
  {
    hide Elsewhere, ClaudeSettings, Layered;
    var b, o := project.builtinClaude, project.claude.value.files;
    LayeredElsewhere(".claude/agents/", [Layer(Uncounted(b.agents), "builtin"), Layer(Uncounted(o.agents), "project")], "");
    LayeredElsewhere(".claude/commands/", [Layer(Uncounted(b.commands), "builtin"), Layer(Uncounted(o.commands), "project")], "");
    FixedElsewhere();
  }

  lemma SmallElsewhere(project: Project)
    ensures CodexFiles(project).Ok? ==> AllElsewhere(CodexFiles(project).value)
    ensures AllElsewhere(InstructionFiles(project))
    ensures DevcontainerFiles(project).Ok? ==> AllElsewhere(DevcontainerFiles(project).value)
    ensures SkillFiles(project).Ok? ==> AllElsewhere(SkillFiles(project).value)
  {
    hide Elsewhere, Layered, Named;
    FixedElsewhere();
    if project.devcontainer.Some? && project.devcontainer.value.Some? {
      NamedElsewhere(".devcontainer/", project.devcontainer.value.value, "", "project");
    }
    LayeredElsewhere(".agents/skills/",
      [Layer(project.builtinSkills, "builtin"), Layer(project.skills, "project")], "/SKILL.md");
  }

  lemma UnionElsewhere(a: Files, b: Files)
    requires AllElsewhere(a) && AllElsewhere(b)
    ensures AllElsewhere(a + b)
  {
  }

  lemma ManifestUnlisted(tools: Tools, project: Project)
    requires WorkspaceFiles(tools, project).Ok?
    ensures MANIFEST !in WorkspaceFiles(tools, project).value
  {
    hide AllElsewhere, SkillFiles, OpencodeFiles, ClaudeFiles, CodexFiles, InstructionFiles, DevcontainerFiles, EditorFiles;
    SmallElsewhere(project);
    OpencodeElsewhere(tools, project);
    ClaudeElsewhere(tools, project);
    EditorElsewhere(project);
    var skills := SkillFiles(project).value;
    var opencode := skills + OpencodeFiles(tools, project).value;
    var claude := opencode + ClaudeFiles(tools, project).value;
    var codex := claude + CodexFiles(project).value;
    var instructions := codex + InstructionFiles(project);
    var devcontainer := instructions + DevcontainerFiles(project).value;
    UnionElsewhere(skills, OpencodeFiles(tools, project).value);
    UnionElsewhere(opencode, ClaudeFiles(tools, project).value);
    UnionElsewhere(claude, CodexFiles(project).value);
    UnionElsewhere(codex, InstructionFiles(project));
    UnionElsewhere(instructions, DevcontainerFiles(project).value);
    UnionElsewhere(devcontainer, EditorFiles(project));
    ManifestNotElsewhere(WorkspaceFiles(tools, project).value);
  }

  lemma ManifestNotElsewhere(files: Files)
    requires AllElsewhere(files)
    ensures MANIFEST !in files
  {
  }

  // ----- The manifest and what it says of the disk -----

  function Entry(file: RenderedFile): Json {
    Obj(map["sha256" := Str(file.sha256), "source" := Str(file.source)])
  }

  function Entries(records: map<string, RenderedFile>): Fields {
    map path | path in records :: Entry(records[path])
  }

  function Manifest(records: map<string, RenderedFile>): Fields {
    map["schema_version" := Int(1), "workspace_root" := Str("."), "files" := Obj(Entries(records))]
  }

  /** The JSON object in a file, if there is one. */
  function ReadObject(tools: Tools, disk: Disk, path: string): Option<Fields> {
    if path !in disk then None
    else match tools.loads(disk[path]) case Some(Obj(fields)) => Some(fields) case _ => None
  }

  function FilesOf(manifest: Fields): Fields {
    match Get(manifest, "files") case Obj(files) => files case _ => map[]
  }

  /** The entries of the manifest on disk; none when it cannot be read. */
  function Tracked(tools: Tools, disk: Disk): Fields {
    match ReadObject(tools, disk, MANIFEST)
    case Some(manifest) => FilesOf(manifest)
    case None => map[]
  }

  /** The manifest lists the file with the hash of what is on disk. */
  predicate Agrees(tools: Tools, disk: Disk, path: string) {
    && path in disk && path in Tracked(tools, disk)
    && Tracked(tools, disk)[path].Obj?
    && Get(Tracked(tools, disk)[path].fields, "sha256") == Str(tools.sha(disk[path]))
  }

  /** The manifest says where the file came from. */
  predicate Labelled(tools: Tools, disk: Disk, path: string, source: string) {
    && path in Tracked(tools, disk) && Tracked(tools, disk)[path].Obj?
    && Get(Tracked(tools, disk)[path].fields, "source") == Str(source)
  }

  lemma ManifestRead(tools: Tools, disk: Disk, records: map<string, RenderedFile>)
    requires tools.Kept(Manifest(records)) && MANIFEST in disk
    requires disk[MANIFEST] == tools.dumps(Obj(Manifest(records))) + "\n"
    ensures Tracked(tools, disk) == Entries(records)
  {
  }

  /** After a render the manifest lists exactly the rendered files, each with its hash. */
  lemma RenderedAgrees(tools: Tools, before: Disk, files: Files)
    requires tools.Kept(Manifest(Records(tools, files))) && MANIFEST !in files
    ensures var disk := (before + Contents(files))[MANIFEST := tools.dumps(Obj(Manifest(Records(tools, files)))) + "\n"];
      && Tracked(tools, disk).Keys == files.Keys
      && forall path :: path in files ==>
           Agrees(tools, disk, path) && disk[path] == files[path].content && Labelled(tools, disk, path, files[path].source)
  {
    hide Manifest, Tracked;
    var disk := (before + Contents(files))[MANIFEST := tools.dumps(Obj(Manifest(Records(tools, files)))) + "\n"];
    ManifestRead(tools, disk, Records(tools, files));
    assert Entries(Records(tools, files)).Keys == files.Keys;
    forall path | path in files
      ensures Agrees(tools, disk, path) && disk[path] == files[path].content && Labelled(tools, disk, path, files[path].source)
    {
      assert Tracked(tools, disk)[path] == Entry(Records(tools, files)[path]);
    }
  }

  // ----- refresh_opencode_providers -----

  /** The registry's blocks that the configuration does not have as they are. */
  function Stale(config: Fields, generated: Fields): set<string> {
    set id | id in generated && !(id in Providers(config) && Providers(config)[id] == generated[id])
  }

  /** The blocks `ids` of the registry written over those of the configuration. */
  function Patched(blocks: Fields, generated: Fields, ids: set<string>): Fields {
    blocks + map id | id in ids && id in generated :: generated[id]
  }

  lemma PatchedOn(blocks: Fields, generated: Fields, ids: set<string>, id: string)
    requires id in generated
    ensures Patched(blocks, generated, ids + {id}) == Patched(blocks, generated, ids)[id := generated[id]]
  {
  }

  function Refreshed(config: Fields, generated: Fields): Fields {
    config["provider" := Obj(Patched(Providers(config), generated, Stale(config, generated)))]
  }

  /** A manifest with a new entry for a file. */
  function Relisted(manifest: Fields, file: RenderedFile): Fields {
    manifest["files" := Obj(FilesOf(manifest)[file.relativePath := Entry(file)])]
  }

  function WithEntry(tools: Tools, disk: Disk, file: RenderedFile): Disk {
    match ReadObject(tools, disk, MANIFEST)
    case None => disk
    case Some(manifest) =>
      if file.relativePath !in FilesOf(manifest) then disk
      else disk[MANIFEST := tools.dumps(Obj(Relisted(manifest, file))) + "\n"]
  }

  /** The configuration that a refresh writes, if any, survives being written. */
  predicate ConfigKept(tools: Tools, disk: Disk, generated: Fields) {
    match ReadObject(tools, disk, OPENCODE)
    case None => true
    case Some(config) => Stale(config, generated) != {} ==> tools.Kept(Refreshed(config, generated))
  }

  /** The manifest that is written for a file, if any, survives being written. */
  predicate EntryKept(tools: Tools, disk: Disk, file: RenderedFile) {
    match ReadObject(tools, disk, MANIFEST)
    case None => true
    case Some(manifest) => file.relativePath in FilesOf(manifest) ==> tools.Kept(Relisted(manifest, file))
  }

  /** The record a refresh makes of its configuration. */
  function Rewritten(tools: Tools, config: Fields, generated: Fields): RenderedFile {
    RenderedFile(OPENCODE, tools.sha(tools.dumps(Obj(Refreshed(config, generated))) + "\n"), "generated")
  }

  predicate ManifestKept(tools: Tools, disk: Disk, generated: Fields) {
    match ReadObject(tools, disk, OPENCODE)
    case None => true
    case Some(config) => Stale(config, generated) != {} ==> EntryKept(tools, disk, Rewritten(tools, config, generated))
  }

  function AfterRefresh(tools: Tools, disk: Disk, generated: Fields): (Disk, set<string>) {
    match ReadObject(tools, disk, OPENCODE)
    case None => (disk, {})
    case Some(config) =>
      var stale := Stale(config, generated);
      if stale == {} then (disk, {})
      else
        var text := tools.dumps(Obj(Refreshed(config, generated))) + "\n";
        (WithEntry(tools, disk[OPENCODE := text], Rewritten(tools, config, generated)), stale)
  }

  lemma EntryListed(tools: Tools, disk: Disk, file: RenderedFile)
    requires EntryKept(tools, disk, file)
    ensures Tracked(tools, WithEntry(tools, disk, file))
         == if file.relativePath in Tracked(tools, disk) then Tracked(tools, disk)[file.relativePath := Entry(file)]
            else Tracked(tools, disk)
    ensures forall path :: path != MANIFEST ==>
      (path in WithEntry(tools, disk, file) <==> path in disk)
      && (path in disk ==> WithEntry(tools, disk, file)[path] == disk[path])
  {
  }

  /** A refresh touches two files at most, and no file's agreement with the manifest is
      lost; one that the manifest tracks agrees if it was rewritten, even had it drifted. */
  lemma RefreshKeepsAgreement(tools: Tools, disk: Disk, generated: Fields, path: string)
    requires ManifestKept(tools, disk, generated) && path != MANIFEST
    ensures var (after, stale) := AfterRefresh(tools, disk, generated);
      && (path != OPENCODE || stale == {} ==> (path in after <==> path in disk) && (path in disk ==> after[path] == disk[path]))
      && (Agrees(tools, disk, path) ==> Agrees(tools, after, path))
      && (path == OPENCODE && stale != {} && path in Tracked(tools, disk) ==> Agrees(tools, after, path))
      && Tracked(tools, after).Keys == Tracked(tools, disk).Keys
  {
    hide Stale, Refreshed;
    match ReadObject(tools, disk, OPENCODE)
    case None =>
    case Some(config) =>
      if Stale(config, generated) != {} {
        var text := tools.dumps(Obj(Refreshed(config, generated))) + "\n";
        var mid := disk[OPENCODE := text];
        var item := Rewritten(tools, config, generated);
        assert OPENCODE != MANIFEST && ReadObject(tools, mid, MANIFEST) == ReadObject(tools, disk, MANIFEST);
        EntryListed(tools, mid, item);
        hide WithEntry;
        assert Tracked(tools, mid) == Tracked(tools, disk);
      }
  }

  /** Only blocks of the registry change: everything else of the configuration is kept. */
  lemma RefreshOnlyManaged(config: Fields, generated: Fields)
    ensures var after := Refreshed(config, generated);
      && (forall key :: key != "provider" ==>
            (key in after <==> key in config) && (key in config ==> after[key] == config[key]))
      && (forall id :: id !in generated ==>
            (id in Providers(after) <==> id in Providers(config))
            && (id in Providers(config) ==> Providers(after)[id] == Providers(config)[id]))
      && (forall id :: id in generated ==> id in Providers(after) && Providers(after)[id] == generated[id])
  {
  }

  /** The refresh has nothing left to do: doing it again returns no id and writes nothing. */
  lemma RefreshTwice(tools: Tools, disk: Disk, generated: Fields)
    requires ConfigKept(tools, disk, generated)
    ensures var (once, _) := AfterRefresh(tools, disk, generated);
      AfterRefresh(tools, once, generated) == (once, {})
  {
  }
}
