/** What a render leaves at each path of a workspace, spelled out path by path
    (src/execraft/render.py). */
module RenderedFiles {
  import opened Json
  import opened DeepMerge
  import opened Render
  import opened WorkspaceShell
  import Text

  // ----- Which file stands at a path -----

  function Look(files: Files, path: string): Option<File> {
    if path in files then Some(files[path]) else None
  }

  function Or(first: Option<File>, second: Option<File>): Option<File> {
    if first.Some? then first else second
  }

  /** The file of a directory that goes to `path`. */
  function Copied(prefix: string, dir: Option<Dir>, suffix: string, source: string, path: string): Option<File> {
    if dir.Some? && prefix <= path && |path| >= |prefix| + |suffix| && path[|path| - |suffix|..] == suffix
       && path[|prefix|..|path| - |suffix|] in dir.value
    then Some(File(dir.value[path[|prefix|..|path| - |suffix|]], source))
    else None
  }

  /** The agent or command that goes to `path`: the project's, or else the built-in one. */
  function Provided(prefix: string, builtin: Option<Dir>, overlay: Option<Dir>, path: string): Option<File> {
    if path == prefix + ".gitkeep" then None
    else Or(Copied(prefix, overlay, "", "project", path), Copied(prefix, builtin, "", "builtin", path))
  }

  function Skill(project: Project, path: string): Option<File> {
    Or(Copied(".agents/skills/", project.skills, "/SKILL.md", "project", path),
       Copied(".agents/skills/", project.builtinSkills, "/SKILL.md", "builtin", path))
  }

  function ForOpencode(project: Project, overlay: OpencodeOverlay, config: string, path: string): Option<File> {
    if path == ".opencode/.gitignore" then
      Some(File("node_modules\npackage.json\npackage-lock.json\nbun.lock\n", "generated"))
    else if path == "opencode.json" then Some(File(config, "generated"))
    else Or(Provided(".opencode/commands/", project.builtinOpencode.commands, overlay.files.commands, path),
            Provided(".opencode/agents/", project.builtinOpencode.agents, overlay.files.agents, path))
  }

  function ForClaude(project: Project, overlay: ClaudeOverlay, settings: string, path: string): Option<File> {
    if path == "CLAUDE.md" then
      Some(match overlay.instructions case Some(text) => File(text, "project") case None => File("@AGENTS.md\n", "generated"))
    else if path == ".claude/settings.json" then Some(File(settings, "generated"))
    else Or(Provided(".claude/commands/", project.builtinClaude.commands, overlay.files.commands, path),
            Provided(".claude/agents/", project.builtinClaude.agents, overlay.files.agents, path))
  }

  function Instructions(project: Project, path: string): Option<File> {
    if path != "AGENTS.md" then None
    else if project.instructions.Some? then Some(File(project.instructions.value, "project"))
    else Some(File(SHELL_NOTE, "generated"))
  }

  function Codex(project: Project, path: string): Option<File> {
    if path != ".codex/config.toml" || project.codex.None? then None else Some(File(project.codex.value, "generated"))
  }

  function Devcontainer(project: Project, path: string): Option<File> {
    if project.devcontainer.None? then None else Copied(".devcontainer/", project.devcontainer.value, "", "project", path)
  }

  function ForEditor(project: Project, path: string): Option<File> {
    if project.editor.None? then None else
    var editor := project.editor.value;
    if path == editor.taskId + ".code-workspace" then Some(File(editor.workspace, "generated"))
    else if path == ".vscode/settings.json" then Some(File(editor.settings, "generated"))
    else if path == ".vscode/tasks.json" then Some(File(editor.tasks, "generated"))
    else if path == ".vscode/extensions.json" then Some(File(editor.extensions, "generated"))
    else None
  }

  /** The rendered configuration, and the rendered settings. */
  function ConfigText(tools: Tools, project: Project): string
    requires OpencodeFiles(tools, project).Ok?
  {
    var overlay := project.opencode.value;
    var parsed := match overlay.config case Some(text) => Some(tools.loads(text)) case None => None;
    tools.dumps(Obj(OpencodeConfig(project.permission, overlay.registry, parsed).value)) + "\n"
  }

  function SettingsText(tools: Tools, project: Project): string
    requires ClaudeFiles(tools, project).Ok?
  {
    tools.dumps(Obj(ClaudeSettings(tools, project.claude.value, project.claudeMode).value)) + "\n"
  }

  /** The file at `path` after a render: what the last step that writes there put in place. */
  function Seen(tools: Tools, project: Project, path: string): Option<File>
    requires OpencodeFiles(tools, project).Ok? && ClaudeFiles(tools, project).Ok?
  {
    Or(ForEditor(project, path), Or(Devcontainer(project, path), Or(Instructions(project, path), Or(Codex(project, path),
    Or(ForClaude(project, project.claude.value, SettingsText(tools, project), path),
    Or(ForOpencode(project, project.opencode.value, ConfigText(tools, project), path), Skill(project, path)))))))
  }

  lemma LookUnion(f: Files, g: Files, path: string)
    ensures Look(f + g, path) == Or(Look(g, path), Look(f, path))
  {
  }

  lemma LookNamed(prefix: string, files: Dir, suffix: string, source: string, path: string)
    ensures Look(Named(prefix, files, suffix, source), path) == Copied(prefix, Some(files), suffix, source, path)
  {
    NamedKeys(prefix, files, suffix, source);
    if path in Named(prefix, files, suffix, source) {
      hide Named;
      assert path in Paths(prefix, files.Keys, suffix);
      var name :| name in files && path == PathOf(prefix, name, suffix);
      CopiedThere(prefix, files, suffix, source, name);
    } else if Copied(prefix, Some(files), suffix, source, path).Some? {
      hide Named;
      CopiedFrom(prefix, files, suffix, source, path);
    }
  }

  lemma CopiedThere(prefix: string, files: Dir, suffix: string, source: string, name: string)
    requires name in files
    ensures Copied(prefix, Some(files), suffix, source, PathOf(prefix, name, suffix)) == Some(File(files[name], source))
  {
    var path := PathOf(prefix, name, suffix);
    assert path[|prefix|..|path| - |suffix|] == name;
  }

  lemma CopiedFrom(prefix: string, files: Dir, suffix: string, source: string, path: string)
    requires Copied(prefix, Some(files), suffix, source, path).Some?
    ensures path in Named(prefix, files, suffix, source)
  {
    var name := path[|prefix|..|path| - |suffix|];
    assert path == PathOf(prefix, name, suffix);
    NamedKeys(prefix, files, suffix, source);
  }

  lemma LookLayers(prefix: string, lower: Option<Dir>, upper: Option<Dir>, suffix: string, path: string)
    ensures Look(Layered(prefix, [Layer(lower, "builtin"), Layer(upper, "project")], suffix), path)
         == Or(Copied(prefix, upper, suffix, "project", path), Copied(prefix, lower, suffix, "builtin", path))
  {
    hide Named;
    var below, above := Layer(lower, "builtin"), Layer(upper, "project");
    assert Text.Init([below, above]) == [below] && Text.Init([below]) == [] && Text.Last([below]) == below;
    assert Text.Last([below, above]) == above;
    var first := Layered(prefix, [below], suffix);
    var second := match upper case Some(files) => Named(prefix, files, suffix, "project") case None => map[];
    var base := match lower case Some(files) => Named(prefix, files, suffix, "builtin") case None => map[];
    assert Layered(prefix, [], suffix) == map[];
    assert first == map[] + base;
    LookUnion(map[], base, path);
    LookUnion(first, second, path);
    if lower.Some? {
      LookNamed(prefix, lower.value, suffix, "builtin", path);
    }
    if upper.Some? {
      LookNamed(prefix, upper.value, suffix, "project", path);
    }
  }

  lemma CopiedUncounted(prefix: string, dir: Option<Dir>, source: string, path: string)
    ensures Copied(prefix, Uncounted(dir), "", source, path)
         == if path == prefix + ".gitkeep" then None else Copied(prefix, dir, "", source, path)
  {
    if prefix <= path {
      assert path[|prefix|..|path| - 0] == path[|prefix|..];
      assert path == prefix + path[|prefix|..];
    }
  }

  lemma LookProvider(prefix: string, builtin: Option<Dir>, overlay: Option<Dir>, path: string)
    ensures Look(ProviderFiles(prefix, builtin, overlay), path) == Provided(prefix, builtin, overlay, path)
  {
    hide Copied, Layered, Uncounted;
    LookLayers(prefix, Uncounted(builtin), Uncounted(overlay), "", path);
    CopiedUncounted(prefix, builtin, "builtin", path);
    CopiedUncounted(prefix, overlay, "project", path);
  }

  lemma LookOpencode(tools: Tools, project: Project, path: string)
    requires OpencodeFiles(tools, project).Ok?
    ensures Look(OpencodeFiles(tools, project).value, path)
         == ForOpencode(project, project.opencode.value, ConfigText(tools, project), path)
  {
    hide ProviderFiles, Provided, OpencodeConfig;
    var overlay := project.opencode.value;
    LookProvider(".opencode/agents/", project.builtinOpencode.agents, overlay.files.agents, path);
    LookProvider(".opencode/commands/", project.builtinOpencode.commands, overlay.files.commands, path);
  }

  lemma LookClaude(tools: Tools, project: Project, path: string)
    requires ClaudeFiles(tools, project).Ok?
    ensures Look(ClaudeFiles(tools, project).value, path)
         == ForClaude(project, project.claude.value, SettingsText(tools, project), path)
  {
    hide ProviderFiles, Provided, ClaudeSettings;
    var overlay := project.claude.value;
    LookProvider(".claude/agents/", project.builtinClaude.agents, overlay.files.agents, path);
    LookProvider(".claude/commands/", project.builtinClaude.commands, overlay.files.commands, path);
  }

  lemma LookEditor(project: Project, path: string)
    ensures Look(EditorFiles(project), path) == ForEditor(project, path)
  {
  }

  /** A project renders unless one of its directories is missing, or its overlay or its
      settings are refused. */
  predicate Renders(tools: Tools, project: Project) {
    && project.skills.Some? && project.codex.Some? && project.devcontainer != Some(None)
    && OpencodeFits(tools, project) && ClaudeFits(tools, project)
  }

  predicate OpencodeFits(tools: Tools, project: Project) {
    && project.opencode.Some?
    && (project.opencode.value.config.Some? ==>
          OverlayFits(project.opencode.value.registry, tools.loads(project.opencode.value.config.value)))
  }

  predicate ClaudeFits(tools: Tools, project: Project) {
    && project.claude.Some?
    && (project.claude.value.settings.Some? ==>
          match tools.loads(project.claude.value.settings.value) case Some(Obj(_)) => true case _ => false)
  }

  /** An object whose providers, if it has any, are an object and none of the registry's. */
  predicate OverlayFits(registry: Fields, overlay: Option<Json>) {
    && overlay.Some? && overlay.value.Obj?
    && ("provider" in overlay.value.fields ==>
          && overlay.value.fields["provider"].Obj?
          && forall id :: id in overlay.value.fields["provider"].fields ==> id !in registry)
  }

  lemma OverlayAccepted(permission: Json, generated: Fields, overlay: Option<Json>)
    ensures OpencodeConfig(permission, generated, Some(overlay)).Ok? <==> OverlayFits(generated, overlay)
  {
    if overlay.Some? && overlay.value.Obj? {
      var fields := overlay.value.fields;
      assert "provider" in fields - {"$schema", "permission"} <==> "provider" in fields;
      if "provider" in fields && fields["provider"].Obj? {
        NoneInCommon(generated, fields["provider"].fields);
      }
    }
  }

  lemma NoneInCommon(a: Fields, b: Fields)
    ensures a.Keys * b.Keys == {} <==> forall id :: id in b ==> id !in a
  {
    if id :| id in b && id in a {
      assert id in a.Keys * b.Keys;
    }
  }

  /** A render succeeds exactly then. */
  lemma RendersExactly(tools: Tools, project: Project)
    ensures WorkspaceFiles(tools, project).Ok? <==> Renders(tools, project)
  {
    OpencodeRenders(tools, project);
    ClaudeRenders(tools, project);
    SmallRender(project);
    hide OpencodeFits, ClaudeFits, SkillFiles, OpencodeFiles, ClaudeFiles, CodexFiles, InstructionFiles, DevcontainerFiles,
         EditorFiles;
  }

  lemma OpencodeRenders(tools: Tools, project: Project)
    ensures OpencodeFiles(tools, project).Ok? <==> OpencodeFits(tools, project)
  {
    hide OpencodeConfig, OverlayFits, ProviderFiles;
    if project.opencode.Some? {
      var overlay := project.opencode.value;
      if overlay.config.Some? {
        OverlayAccepted(project.permission, overlay.registry, tools.loads(overlay.config.value));
      } else {
        PlainConfig(project.permission, overlay.registry);
      }
    }
  }

  lemma ClaudeRenders(tools: Tools, project: Project)
    ensures ClaudeFiles(tools, project).Ok? <==> ClaudeFits(tools, project)
  {
    hide ProviderFiles;
  }

  lemma SmallRender(project: Project)
    ensures SkillFiles(project).Ok? <==> project.skills.Some?
    ensures CodexFiles(project).Ok? <==> project.codex.Some?
    ensures DevcontainerFiles(project).Ok? <==> project.devcontainer != Some(None)
  {
    hide Layered, Named;
  }

  lemma PlainConfig(permission: Json, generated: Fields)
    ensures OpencodeConfig(permission, generated, None)
         == Ok(map["$schema" := Str("https://opencode.ai/config.json"), "permission" := permission]
               + if generated == map[] then map[] else map["provider" := Obj(generated)])
  {
    var config := map["$schema" := SCHEMA, "permission" := permission];
    assert config + map[] == config;
    assert config + map["provider" := Obj(generated)] == config["provider" := Obj(generated)];
  }

  /** A successful render puts at every path what the project has for it, and nothing
      anywhere else. */
  lemma SeenExactly(tools: Tools, project: Project, path: string)
    requires WorkspaceFiles(tools, project).Ok?
    ensures OpencodeFiles(tools, project).Ok? && ClaudeFiles(tools, project).Ok?
    ensures Look(WorkspaceFiles(tools, project).value, path)
         == Seen(tools, project, path)
  {
    WorkspaceSum(tools, project);
    LookOpencode(tools, project, path);
    LookClaude(tools, project, path);
    LookSmall(project, path);
    hide SkillFiles, OpencodeFiles, ClaudeFiles, CodexFiles, InstructionFiles, DevcontainerFiles, EditorFiles, Look, Or,
         Skill, ForOpencode, ForClaude, Codex, Instructions, Devcontainer, ForEditor, ConfigText, SettingsText, WorkspaceFiles;
    LookSum(SkillFiles(project).value, OpencodeFiles(tools, project).value, ClaudeFiles(tools, project).value,
            CodexFiles(project).value, InstructionFiles(project), DevcontainerFiles(project).value, EditorFiles(project), path);
  }

  lemma LookSum(a: Files, b: Files, c: Files, d: Files, e: Files, f: Files, g: Files, path: string)
    ensures Look(a + b + c + d + e + f + g, path)
         == Or(Look(g, path), Or(Look(f, path), Or(Look(e, path), Or(Look(d, path), Or(Look(c, path),
            Or(Look(b, path), Look(a, path)))))))
  {
    LookUnion(a, b, path);
    LookUnion(a + b, c, path);
    LookUnion(a + b + c, d, path);
    LookUnion(a + b + c + d, e, path);
    LookUnion(a + b + c + d + e, f, path);
    LookUnion(a + b + c + d + e + f, g, path);
    hide Look;
  }

  lemma WorkspaceSum(tools: Tools, project: Project)
    requires WorkspaceFiles(tools, project).Ok?
    ensures SkillFiles(project).Ok? && OpencodeFiles(tools, project).Ok? && ClaudeFiles(tools, project).Ok?
    ensures CodexFiles(project).Ok? && DevcontainerFiles(project).Ok?
    ensures WorkspaceFiles(tools, project).value
         == SkillFiles(project).value + OpencodeFiles(tools, project).value + ClaudeFiles(tools, project).value
          + CodexFiles(project).value + InstructionFiles(project) + DevcontainerFiles(project).value + EditorFiles(project)
  {
    hide SkillFiles, OpencodeFiles, ClaudeFiles, CodexFiles, InstructionFiles, DevcontainerFiles, EditorFiles;
  }

  lemma LookSmall(project: Project, path: string)
    ensures SkillFiles(project).Ok? ==> project.skills.Some? && Look(SkillFiles(project).value, path) == Skill(project, path)
    ensures CodexFiles(project).Ok? ==> project.codex.Some? && Look(CodexFiles(project).value, path) == Codex(project, path)
    ensures Look(InstructionFiles(project), path) == Instructions(project, path)
    ensures DevcontainerFiles(project).Ok? ==> Look(DevcontainerFiles(project).value, path) == Devcontainer(project, path)
    ensures Look(EditorFiles(project), path) == ForEditor(project, path)
  {
    LookEditor(project, path);
    hide Layered, Named, Copied, ForEditor, EditorFiles;
    LookLayers(".agents/skills/", project.builtinSkills, project.skills, "/SKILL.md", path);
    if project.devcontainer.Some? && project.devcontainer.value.Some? {
      LookNamed(".devcontainer/", project.devcontainer.value.value, "", "project", path);
    }
  }

  /** The policy's mode prevails in the Claude settings, and nothing else of them changes. */
  lemma ModePrevails(tools: Tools, overlay: ClaudeOverlay, mode: string)
    requires ClaudeSettings(tools, overlay, mode).Ok?
    ensures var settings := ClaudeSettings(tools, overlay, mode).value;
      var own := if overlay.settings.None? then Some(Obj(map[])) else tools.loads(overlay.settings.value);
      && own.Some? && own.value.Obj?
      && "permissions" in settings && settings["permissions"].Obj?
      && "defaultMode" in settings["permissions"].fields
      && settings["permissions"].fields["defaultMode"] == Str(mode)
      && settings - {"permissions"} == own.value.fields - {"permissions"}
      && settings["permissions"].fields - {"defaultMode"}
         == match Get(own.value.fields, "permissions") case Obj(fields) => fields - {"defaultMode"} case _ => map[]
  {
    var own := if overlay.settings.None? then map[] else tools.loads(overlay.settings.value).value.fields;
    var moded := map["defaultMode" := Str(mode)];
    var settings := Merge(own, map["permissions" := Obj(moded)]);
    assert settings - {"permissions"} == own - {"permissions"};
    if "permissions" in own && own["permissions"].Obj? {
      var before := own["permissions"].fields;
      assert settings["permissions"] == Obj(Merge(before, moded));
      assert Merge(before, moded) - {"defaultMode"} == before - {"defaultMode"};
    } else {
      assert settings["permissions"] == Obj(moded);
    }
  }

  // ----- Cleaning, the manifest, and the refresh -----

  /** Cleaning takes away the six generated trees and the three generated files, and nothing else. */
  lemma CleanedExactly(disk: Disk, path: string)
    ensures path in Cleaned(disk) <==>
      && path in disk
      && path != "AGENTS.md" && path != "CLAUDE.md" && path != "opencode.json"
      && !(".agents/" <= path) && !(".opencode/" <= path) && !(".claude/" <= path)
      && !(".codex/" <= path) && !(".vscode/" <= path) && !(".devcontainer/" <= path)
    ensures path in Cleaned(disk) ==> Cleaned(disk)[path] == disk[path]
  {
    TreesAre(path);
    hide Cleared;
  }

  lemma TreesAre(path: string)
    ensures Cleared(path) <==>
      || path == "AGENTS.md" || path == "CLAUDE.md" || path == "opencode.json"
      || ".agents/" <= path || ".opencode/" <= path || ".claude/" <= path
      || ".codex/" <= path || ".vscode/" <= path || ".devcontainer/" <= path
  {
    assert TREES[0] == ".agents/" && TREES[1] == ".opencode/" && TREES[2] == ".claude/";
    assert TREES[3] == ".codex/" && TREES[4] == ".vscode/" && TREES[5] == ".devcontainer/";
    assert forall i :: 0 <= i < 6 ==> TREES[i] in TREES;
    if tree :| tree in TREES && tree <= path {
      var i :| 0 <= i < 6 && TREES[i] == tree;
    }
  }

  /** What a refresh returns and leaves on disk, read back: exactly the blocks of the registry
      that were missing or different, now as registered, and every other key as it was. */
  lemma RefreshExactly(tools: Tools, disk: Disk, generated: Fields, config: Fields)
    requires ConfigKept(tools, disk, generated) && ReadObject(tools, disk, "opencode.json") == Some(config)
    ensures var (after, ids) := AfterRefresh(tools, disk, generated);
      && (forall id :: id in ids <==>
            id in generated && !(Get(config, "provider").Obj? && id in config["provider"].fields
                                 && config["provider"].fields[id] == generated[id]))
      && (ids == {} ==> after == disk)
      && (ids != {} ==> exists now ::
            && ReadObject(tools, after, "opencode.json") == Some(now)
            && now - {"provider"} == config - {"provider"}
            && "provider" in now
            && now["provider"] == Obj((match Get(config, "provider") case Obj(blocks) => blocks case _ => map[]) + generated))
  {
    var (after, ids) := AfterRefresh(tools, disk, generated);
    if ids != {} {
      var now := Refreshed(config, generated);
      var text := tools.dumps(Obj(now)) + "\n";
      EntryOnly(tools, disk[OPENCODE := text], Rewritten(tools, config, generated));
      assert now - {"provider"} == config - {"provider"};
      assert Patched(Providers(config), generated, Stale(config, generated)) == Providers(config) + generated;
    }
  }

  lemma EntryOnly(tools: Tools, disk: Disk, file: RenderedFile)
    ensures forall path :: path != MANIFEST ==>
      (path in WithEntry(tools, disk, file) <==> path in disk)
      && (path in disk ==> WithEntry(tools, disk, file)[path] == disk[path])
  {
  }
}
