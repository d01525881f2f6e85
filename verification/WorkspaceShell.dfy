/** The workspace shell on disk: the methods of src/execraft/render.py that write files,
    against the files the project renders to. */
module WorkspaceShell {
  import opened Json
  import opened DeepMerge
  import opened Render
  import opened Sequences
  import Text

  /** `items` are the records of `files`, and `after` is `before` with them written. */
  ghost predicate Wrote(tools: Tools, before: Disk, after: Disk, items: seq<RenderedFile>, files: Files) {
    after == before + Contents(files) && ByPath(items) == Records(tools, files)
  }

  ghost predicate SameManifest(before: Disk, after: Disk) {
    (MANIFEST in after <==> MANIFEST in before) && (MANIFEST in before ==> after[MANIFEST] == before[MANIFEST])
  }

  /** A rendering step writes and records exactly the expected files, or fails with the
      expected error and leaves the manifest alone. */
  ghost predicate Outcome(
    tools: Tools, before: Disk, after: Disk, expected: Result<Files, RenderError>,
    r: Result<seq<RenderedFile>, RenderError>)
  {
    match expected
    case Ok(files) => r.Ok? && Wrote(tools, before, after, r.value, files)
    case Err(error) => r == Err(error) && SameManifest(before, after)
  }

  lemma ManifestStays(disk: Disk)
    ensures SameManifest(disk, disk)
  {
  }

  lemma StaleIsGenerated(config: Fields, generated: Fields)
    ensures Stale(config, generated) <= generated.Keys
  {
  }

  lemma NothingStale()
    ensures forall config :: Stale(config, map[]) == {}
  {
  }

  lemma WroteNothing(tools: Tools, disk: Disk)
    ensures Wrote(tools, disk, disk, [], map[])
  {
  }

  lemma WroteOne(tools: Tools, before: Disk, path: string, file: File)
    ensures Wrote(tools, before, before[path := file.content],
              [RenderedFile(path, tools.sha(file.content), file.source)], map[path := file])
  {
  }

  lemma WroteThen(
    tools: Tools, before: Disk, mid: Disk, after: Disk, a: seq<RenderedFile>, b: seq<RenderedFile>, f: Files, g: Files)
    requires Wrote(tools, before, mid, a, f) && Wrote(tools, mid, after, b, g)
    ensures Wrote(tools, before, after, a + b, f + g)
  {
    hide ByPath, Records, Contents;
    ThenWritten(tools, before, a, b, f, g);
  }

  lemma WroteNamed(
    tools: Tools, before: Disk, mid: Disk, after: Disk, items: seq<RenderedFile>, item: RenderedFile,
    prefix: string, done: Dir, suffix: string, source: string, name: string, content: string)
    requires Wrote(tools, before, mid, items, Named(prefix, done, suffix, source))
    requires Wrote(tools, mid, after, [item], map[PathOf(prefix, name, suffix) := File(content, source)])
    ensures Wrote(tools, before, after, items + [item], Named(prefix, done[name := content], suffix, source))
  {
    hide Wrote, Named, PathOf;
    var f, one := Named(prefix, done, suffix, source), map[PathOf(prefix, name, suffix) := File(content, source)];
    WroteThen(tools, before, mid, after, items, [item], f, one);
    NamedOneMore(prefix, done, suffix, source, name, content);
  }

  lemma NamedNone(prefix: string, files: Dir, suffix: string, source: string)
    ensures Named(prefix, files - files.Keys, suffix, source) == map[]
  {
  }

  lemma OneLess(files: Dir, rest: set<string>, name: string)
    requires name in rest && rest <= files.Keys
    ensures files - (rest - {name}) == (files - rest)[name := files[name]]
  {
  }

  lemma WroteUnique(
    tools: Tools, before: Disk, after: Disk, items: seq<RenderedFile>, unique: seq<RenderedFile>, files: Files)
    requires Wrote(tools, before, after, items, files) && ByPath(unique) == ByPath(items)
    ensures Wrote(tools, before, after, unique, files)
  {
  }

  lemma WroteElsewhere(tools: Tools, before: Disk, after: Disk, items: seq<RenderedFile>, files: Files)
    requires Wrote(tools, before, after, items, files) && AllElsewhere(files)
    ensures SameManifest(before, after)
  {
    ManifestNotElsewhere(files);
  }

  const TREES := [".agents/", ".opencode/", ".claude/", ".codex/", ".vscode/", ".devcontainer/"]

  predicate Cleared(path: string) {
    path in ["AGENTS.md", "CLAUDE.md", OPENCODE] || exists tree :: tree in TREES && tree <= path
  }

  /** The disk without what an earlier render may have left. */
  function Cleaned(disk: Disk): Disk {
    map path | path in disk && !Cleared(path) :: disk[path]
  }

  const MARKER := ".execraft/workspace.yaml"

  class Shell {
    const tools: Tools
    var disk: Disk

    constructor (tools: Tools, disk: Disk)
      ensures this.tools == tools && this.disk == disk
    {
      this.tools := tools;
      this.disk := disk;
    }

    /** `_write_file` and `_copy_file` */
    method WriteFile(path: string, content: string, source: string) returns (item: RenderedFile)
      modifies this`disk
      ensures disk == old(disk)[path := content]
      ensures item == RenderedFile(path, tools.sha(content), source)
      ensures Wrote(tools, old(disk), disk, [item], map[path := File(content, source)])
    {
      disk := disk[path := content];
      item := RenderedFile(path, tools.sha(content), source);
      WroteOne(tools, old(disk), path, File(content, source));
    }

    /** The loop over the entries of one source directory. */
    method CopyDirectory(prefix: string, files: Dir, suffix: string, source: string) returns (items: seq<RenderedFile>)
      modifies this`disk
      ensures Wrote(tools, old(disk), disk, items, Named(prefix, files, suffix, source))
    {
      hide Wrote, Named, PathOf;
      items := [];
      var rest := files.Keys;
      NamedNone(prefix, files, suffix, source);
      WroteNothing(tools, disk);
      while rest != {}
        invariant rest <= files.Keys
        invariant Wrote(tools, old(disk), disk, items, Named(prefix, files - rest, suffix, source))
      {
        var name :| name in rest;
        ghost var mid := disk;
        var item := WriteFile(PathOf(prefix, name, suffix), files[name], source);
        WroteNamed(tools, old(disk), mid, disk, items, item, prefix, files - rest, suffix, source, name, files[name]);
        OneLess(files, rest, name);
        items := items + [item];
        rest := rest - {name};
      }
      assert files - {} == files;
    }

    /** `_copy_named_directories` and `_copy_provider_files` before they remove duplicates */
    method CopyLayers(prefix: string, layers: seq<Layer>, suffix: string) returns (items: seq<RenderedFile>)
      modifies this`disk
      ensures Wrote(tools, old(disk), disk, items, Layered(prefix, layers, suffix))
    {
      hide Wrote, Named;
      items := [];
      WroteNothing(tools, disk);
      for i := 0 to |layers|
        invariant Wrote(tools, old(disk), disk, items, Layered(prefix, layers[..i], suffix))
      {
        assert Text.Init(layers[..i + 1]) == layers[..i];
        ghost var f := Layered(prefix, layers[..i], suffix);
        if layers[i].files.Some? {
          ghost var mid := disk;
          var copied := CopyDirectory(prefix, layers[i].files.value, suffix, layers[i].source);
          WroteThen(tools, old(disk), mid, disk, items, copied, f, Named(prefix, layers[i].files.value, suffix, layers[i].source));
          items := items + copied;
        } else {
          assert f + map[] == f;
        }
      }
      assert layers[..|layers|] == layers;
    }

    method CopyUnique(prefix: string, layers: seq<Layer>, suffix: string) returns (items: seq<RenderedFile>)
      modifies this`disk
      ensures Wrote(tools, old(disk), disk, items, Layered(prefix, layers, suffix))
    {
      hide ByPath, Records, Contents, Layered, Wrote;
      var copied := CopyLayers(prefix, layers, suffix);
      items := Deduplicate(copied);
      WroteUnique(tools, old(disk), disk, copied, items, Layered(prefix, layers, suffix));
    }

    method CopyProviderFiles(prefix: string, builtin: Option<Dir>, overlay: Option<Dir>) returns (items: seq<RenderedFile>)
      modifies this`disk
      ensures Wrote(tools, old(disk), disk, items, ProviderFiles(prefix, builtin, overlay))
    {
      hide Wrote, Layered;
      items := CopyUnique(prefix, [Layer(Uncounted(builtin), "builtin"), Layer(Uncounted(overlay), "project")], "");
    }

    method RenderSkills(project: Project) returns (r: Result<seq<RenderedFile>, RenderError>)
      modifies this`disk
      ensures Outcome(tools, old(disk), disk, SkillFiles(project), r)
    {
      hide Wrote, Layered;
      if project.skills.None? {
        return Err(MissingDirectory);
      }
      var items := CopyUnique(".agents/skills/",
        [Layer(project.builtinSkills, "builtin"), Layer(project.skills, "project")], "/SKILL.md");
      r := Ok(items);
    }

    /** The agents and commands of a provider, copied before its settings are looked at. */
    method CopyProvider(root: string, builtin: Provider, overlay: Provider) returns (items: seq<RenderedFile>)
      requires |root| > 1 && root[0] == '.' && root[1] != 'e'
      modifies this`disk
      ensures Wrote(tools, old(disk), disk, items,
        ProviderFiles(root + "/agents/", builtin.agents, overlay.agents)
        + ProviderFiles(root + "/commands/", builtin.commands, overlay.commands))
      ensures SameManifest(old(disk), disk)
    {
      hide Wrote, Layered, SameManifest;
      var agents := CopyProviderFiles(root + "/agents/", builtin.agents, overlay.agents);
      ghost var mid := disk;
      var commands := CopyProviderFiles(root + "/commands/", builtin.commands, overlay.commands);
      items := agents + commands;
      ghost var f := ProviderFiles(root + "/agents/", builtin.agents, overlay.agents);
      ghost var g := ProviderFiles(root + "/commands/", builtin.commands, overlay.commands);
      WroteThen(tools, old(disk), mid, disk, agents, commands, f, g);
      LayeredElsewhere(root + "/agents/",
        [Layer(Uncounted(builtin.agents), "builtin"), Layer(Uncounted(overlay.agents), "project")], "");
      LayeredElsewhere(root + "/commands/",
        [Layer(Uncounted(builtin.commands), "builtin"), Layer(Uncounted(overlay.commands), "project")], "");
      UnionElsewhere(f, g);
      WroteElsewhere(tools, old(disk), disk, items, f + g);
    }

    /** Two generated files after what is there. */
    method WriteTwo(items: seq<RenderedFile>, ghost before: Disk, ghost files: Files, p: string, f: File, q: string, g: File)
      returns (all: seq<RenderedFile>)
      requires Wrote(tools, before, disk, items, files)
      modifies this`disk
      ensures Wrote(tools, before, disk, all, files + map[p := f] + map[q := g])
    {
      hide Wrote;
      ghost var d := disk;
      var first := WriteFile(p, f.content, f.source);
      WroteThen(tools, before, d, disk, items, [first], files, map[p := f]);
      d := disk;
      var second := WriteFile(q, g.content, g.source);
      WroteThen(tools, before, d, disk, items + [first], [second], files + map[p := f], map[q := g]);
      all := items + [first] + [second];
    }

    /** The configuration, member by member as `render_opencode` builds it. */
    method BuildConfig(permission: Json, generated: Fields, overlay: Option<string>) returns (r: Result<Fields, RenderError>)
      ensures r == OpencodeConfig(permission, generated,
        match overlay case Some(text) => Some(tools.loads(text)) case None => None)
    {
      var config: Fields := map["$schema" := SCHEMA, "permission" := permission];
      if generated != map[] {
        config := config["provider" := Obj(generated)];
      }
      if overlay.Some? {
        var parsed := tools.loads(overlay.value);
        if parsed.None? || !parsed.value.Obj? {
          return Err(InvalidOverlay);
        }
        var kept := parsed.value.fields;
        kept := kept - {"$schema"};
        kept := kept - {"permission"};
        assert kept == parsed.value.fields - {"$schema", "permission"};
        var providers := if "provider" in kept then kept["provider"] else Obj(map[]);
        if !providers.Obj? {
          return Err(InvalidProvider);
        }
        var duplicates := generated.Keys * providers.fields.Keys;
        if duplicates != {} {
          return Err(DuplicateProviders(duplicates));
        }
        config := MergeMappings(config, kept);
      }
      return Ok(config);
    }

    method RenderOpencode(project: Project) returns (r: Result<seq<RenderedFile>, RenderError>)
      modifies this`disk
      ensures Outcome(tools, old(disk), disk, OpencodeFiles(tools, project), r)
    {
      hide Wrote, SameManifest, ProviderFiles, OpencodeConfig;
      if project.opencode.None? {
        ManifestStays(disk);
        return Err(MissingDirectory);
      }
      var overlay := project.opencode.value;
      var items := CopyProvider(".opencode", project.builtinOpencode, overlay.files);
      assert ".opencode" + "/agents/" == ".opencode/agents/" && ".opencode" + "/commands/" == ".opencode/commands/";
      var config := BuildConfig(project.permission, overlay.registry, overlay.config);
      if config.Err? {
        return Err(config.error);
      }
      ghost var f := ProviderFiles(".opencode/agents/", project.builtinOpencode.agents, overlay.files.agents)
        + ProviderFiles(".opencode/commands/", project.builtinOpencode.commands, overlay.files.commands);
      items := WriteTwo(items, old(disk), f,
        OPENCODE, File(tools.dumps(Obj(config.value)) + "\n", "generated"),
        ".opencode/.gitignore", File(GITIGNORE, "generated"));
      var unique := Deduplicate(items);
      WroteUnique(tools, old(disk), disk, items, unique, OpencodeFiles(tools, project).value);
      return Ok(unique);
    }

    method RenderClaude(project: Project) returns (r: Result<seq<RenderedFile>, RenderError>)
      modifies this`disk
      ensures Outcome(tools, old(disk), disk, ClaudeFiles(tools, project), r)
    {
      hide Wrote, SameManifest, ProviderFiles;
      if project.claude.None? {
        ManifestStays(disk);
        return Err(MissingDirectory);
      }
      var overlay := project.claude.value;
      var items := CopyProvider(".claude", project.builtinClaude, overlay.files);
      assert ".claude" + "/agents/" == ".claude/agents/" && ".claude" + "/commands/" == ".claude/commands/";
      var parsed := Some(Obj(map[]));
      if overlay.settings.Some? {
        parsed := tools.loads(overlay.settings.value);
      }
      if parsed.None? || !parsed.value.Obj? {
        return Err(InvalidSettings);
      }
      var settings :=
        MergeMappings(parsed.value.fields, map["permissions" := Obj(map["defaultMode" := Str(project.claudeMode)])]);
      ghost var f := ProviderFiles(".claude/agents/", project.builtinClaude.agents, overlay.files.agents)
        + ProviderFiles(".claude/commands/", project.builtinClaude.commands, overlay.files.commands);
      items := WriteTwo(items, old(disk), f,
        ".claude/settings.json", File(tools.dumps(Obj(settings)) + "\n", "generated"),
        "CLAUDE.md", ClaudeInstructions(overlay));
      var unique := Deduplicate(items);
      WroteUnique(tools, old(disk), disk, items, unique, ClaudeFiles(tools, project).value);
      return Ok(unique);
    }

    method RenderCodex(project: Project) returns (r: Result<seq<RenderedFile>, RenderError>)
      modifies this`disk
      ensures Outcome(tools, old(disk), disk, CodexFiles(project), r)
    {
      hide Wrote;
      if project.codex.None? {
        return Err(MissingDirectory);
      }
      var item := WriteFile(".codex/config.toml", project.codex.value, "generated");
      return Ok([item]);
    }

    method RenderInstructions(project: Project) returns (items: seq<RenderedFile>)
      modifies this`disk
      ensures Wrote(tools, old(disk), disk, items, InstructionFiles(project))
    {
      hide Wrote;
      var item;
      if project.instructions.Some? {
        item := WriteFile("AGENTS.md", project.instructions.value, "project");
      } else {
        item := WriteFile("AGENTS.md", SHELL_NOTE, "generated");
      }
      return [item];
    }

    method RenderDevcontainer(project: Project) returns (r: Result<seq<RenderedFile>, RenderError>)
      modifies this`disk
      ensures Outcome(tools, old(disk), disk, DevcontainerFiles(project), r)
    {
      hide Wrote, Named;
      if project.devcontainer.None? {
        WroteNothing(tools, disk);
        return Ok([]);
      }
      if project.devcontainer.value.None? {
        return Err(MissingDirectory);
      }
      var items := CopyDirectory(".devcontainer/", project.devcontainer.value.value, "", "project");
      return Ok(items);
    }

    method RenderVscode(project: Project) returns (items: seq<RenderedFile>)
      modifies this`disk
      ensures Wrote(tools, old(disk), disk, items, EditorFiles(project))
    {
      hide Wrote;
      if project.editor.None? {
        WroteNothing(tools, disk);
        return [];
      }
      var editor := project.editor.value;
      var first := WriteFile(".vscode/settings.json", editor.settings, "generated");
      ghost var d := disk;
      var second := WriteFile(".vscode/tasks.json", editor.tasks, "generated");
      ghost var f := map[".vscode/settings.json" := File(editor.settings, "generated")];
      ghost var g := map[".vscode/tasks.json" := File(editor.tasks, "generated")];
      WroteThen(tools, old(disk), d, disk, [first], [second], f, g);
      items := WriteTwo([first] + [second], old(disk), f + g,
        ".vscode/extensions.json", File(editor.extensions, "generated"),
        editor.taskId + ".code-workspace", File(editor.workspace, "generated"));
    }

    /** The part of `render_workspace` up to the manifest. */
    method RenderFiles(project: Project) returns (r: Result<seq<RenderedFile>, RenderError>)
      modifies this`disk
      ensures Outcome(tools, old(disk), disk, WorkspaceFiles(tools, project), r)
    {
      hide Wrote, SameManifest, AllElsewhere, OpencodeFiles, ClaudeFiles, CodexFiles, DevcontainerFiles, InstructionFiles,
           EditorFiles, SkillFiles, ByPath;
      SmallElsewhere(project);
      ghost var start := disk;
      var skills := RenderSkills(project);
      if skills.Err? {
        return skills;
      }
      ghost var f, mid := SkillFiles(project).value, disk;
      var opencode := RenderOpencode(project);
      if opencode.Err? {
        FailedAfter(tools, start, mid, disk, skills.value, f);
        return opencode;
      }
      OpencodeElsewhere(tools, project);
      var items := skills.value + opencode.value;
      f := Extended(start, mid, skills.value, opencode.value, f, OpencodeFiles(tools, project).value);
      mid := disk;
      var claude := RenderClaude(project);
      if claude.Err? {
        FailedAfter(tools, start, mid, disk, items, f);
        return claude;
      }
      ClaudeElsewhere(tools, project);
      f := Extended(start, mid, items, claude.value, f, ClaudeFiles(tools, project).value);
      items := items + claude.value;
      mid := disk;
      var codex := RenderCodex(project);
      if codex.Err? {
        FailedAfter(tools, start, mid, disk, items, f);
        return codex;
      }
      f := Extended(start, mid, items, codex.value, f, CodexFiles(project).value);
      items := items + codex.value;
      mid := disk;
      var instructions := RenderInstructions(project);
      f := Extended(start, mid, items, instructions, f, InstructionFiles(project));
      items := items + instructions;
      mid := disk;
      var devcontainer := RenderDevcontainer(project);
      if devcontainer.Err? {
        FailedAfter(tools, start, mid, disk, items, f);
        return devcontainer;
      }
      f := Extended(start, mid, items, devcontainer.value, f, DevcontainerFiles(project).value);
      items := items + devcontainer.value;
      mid := disk;
      EditorElsewhere(project);
      var editor := RenderVscode(project);
      f := Extended(start, mid, items, editor, f, EditorFiles(project));
      items := items + editor;
      var unique := Deduplicate(items);
      WroteUnique(tools, start, disk, items, unique, f);
      return Ok(unique);
    }

    /** `render_workspace`. When it succeeds, the disk holds what the project renders to, a
        project's file in place of the built-in one of the same path, and a manifest that lists
        exactly those files with the hashes of what is on disk. */
    method RenderWorkspace(project: Project, clean: bool, forceClean: bool)
      returns (r: Result<seq<RenderedFile>, RenderError>)
      modifies this`disk
      ensures clean && !forceClean && MARKER !in old(disk) ==> r == Err(Unowned) && disk == old(disk)
      ensures !(clean && !forceClean && MARKER !in old(disk)) ==>
        var base := if clean then Cleaned(old(disk)) else old(disk);
        match WorkspaceFiles(tools, project)
        case Err(error) => r == Err(error) && SameManifest(old(disk), disk)
        case Ok(files) =>
          && r.Ok? && |r.value| > 0 && SortedByPath(Text.Init(r.value))
          && ByPath(Text.Init(r.value)) == Records(tools, files)
          && disk == (base + Contents(files))[MANIFEST := tools.dumps(Obj(Manifest(Records(tools, files)))) + "\n"]
          && Text.Last(r.value) == RenderedFile(MANIFEST, tools.sha(disk[MANIFEST]), "generated")
          && (tools.Kept(Manifest(Records(tools, files))) ==>
                && Tracked(tools, disk).Keys == files.Keys
                && forall path :: path in files ==>
                     && Agrees(tools, disk, path) && Labelled(tools, disk, path, files[path].source)
                     && disk[path] == files[path].content)
    {
      hide WorkspaceFiles, SameManifest, ByPath, Records, Contents, Manifest, Cleaned, Tracked, Agrees, Labelled;
      if clean {
        if !forceClean && MARKER !in disk {
          return Err(Unowned);
        }
        CleanedKeepsManifest(disk);
        disk := Cleaned(disk);
      } else {
        ManifestStays(disk);
      }
      ghost var base := disk;
      r := RenderFiles(project);
      if r.Err? {
        SameManifestThrough(old(disk), base, disk);
        return;
      }
      ghost var files := WorkspaceFiles(tools, project).value;
      ManifestUnlisted(tools, project);
      var rendered := Deduplicate(r.value);
      ghost var written := disk;
      var item := WriteManifest(rendered);
      assert disk == (base + Contents(files))[MANIFEST := tools.dumps(Obj(Manifest(Records(tools, files)))) + "\n"];
      if tools.Kept(Manifest(Records(tools, files))) {
        RenderedAgrees(tools, base, files);
      }
      assert Text.Init(rendered + [item]) == rendered;
      r := Ok(rendered + [item]);
    }

    /** `render_manifest` */
    method WriteManifest(rendered: seq<RenderedFile>) returns (item: RenderedFile)
      modifies this`disk
      ensures disk == old(disk)[MANIFEST := tools.dumps(Obj(Manifest(ByPath(rendered)))) + "\n"]
      ensures item == RenderedFile(MANIFEST, tools.sha(disk[MANIFEST]), "generated")
    {
      var files: Fields := map[];
      for i := 0 to |rendered|
        invariant files == Entries(ByPath(rendered[..i]))
      {
        assert Text.Init(rendered[..i + 1]) == rendered[..i];
        files := files[rendered[i].relativePath := Entry(rendered[i])];
      }
      assert rendered[..|rendered|] == rendered;
      var manifest: Fields := map["schema_version" := Int(1), "workspace_root" := Str("."), "files" := Obj(files)];
      item := WriteFile(MANIFEST, tools.dumps(Obj(manifest)) + "\n", "generated");
    }

    /** `_update_manifest_entry` */
    method UpdateManifestEntry(file: RenderedFile)
      modifies this`disk
      ensures disk == WithEntry(tools, old(disk), file)
    {
      if MANIFEST !in disk {
        return;
      }
      var manifest := tools.loads(disk[MANIFEST]);
      if manifest.None? || !manifest.value.Obj? {
        return;
      }
      var files := Get(manifest.value.fields, "files");
      if !files.Obj? || file.relativePath !in files.fields {
        return;
      }
      var updated := files.fields[file.relativePath := Entry(file)];
      disk := disk[MANIFEST := tools.dumps(Obj(manifest.value.fields["files" := Obj(updated)])) + "\n"];
    }

    /** `providers.update({id: generated[id] for id in stale})` */
    method UpdateProviders(blocks: Fields, generated: Fields, ids: seq<string>) returns (updated: Fields)
      requires forall id :: id in ids ==> id in generated
      ensures updated == Patched(blocks, generated, Elements(ids))
    {
      updated := blocks;
      assert Patched(blocks, generated, Elements(ids[..0])) == blocks;
      hide Patched;
      for i := 0 to |ids|
        invariant updated == Patched(blocks, generated, Elements(ids[..i]))
      {
        assert ids[i] in ids && ids[..i + 1] == ids[..i] + [ids[i]];
        ElementsOn(ids[..i], ids[i]);
        PatchedOn(blocks, generated, Elements(ids[..i]), ids[i]);
        updated := updated[ids[i] := generated[ids[i]]];
      }
      assert ids[..|ids|] == ids;
    }

    /** `refresh_opencode_providers` */
    method RefreshOpencodeProviders(generated: Fields) returns (ids: seq<string>)
      modifies this`disk
      ensures disk == AfterRefresh(tools, old(disk), generated).0
      ensures Ascending(ids) && forall id :: id in ids <==> id in AfterRefresh(tools, old(disk), generated).1
    {
      hide WithEntry, Stale, Patched, Providers;
      ids := [];
      if generated == map[] {
        NothingStale();
        return;
      }
      if OPENCODE !in disk {
        return;
      }
      var loaded := tools.loads(disk[OPENCODE]);
      if loaded.None? || !loaded.value.Obj? {
        return;
      }
      var config := loaded.value.fields;
      assert ReadObject(tools, disk, OPENCODE) == Some(config);
      ids := Sorted(Stale(config, generated));
      if ids == [] {
        assert Stale(config, generated) == {} by {
          assert forall id :: id in Stale(config, generated) ==> id in ids;
        }
        return;
      }
      assert ids[0] in Stale(config, generated);
      StaleIsGenerated(config, generated);
      assert Elements(ids) == Stale(config, generated);
      var providers := UpdateProviders(Providers(config), generated, ids);
      config := config["provider" := Obj(providers)];
      var file := WriteFile(OPENCODE, tools.dumps(Obj(config)) + "\n", "generated");
      UpdateManifestEntry(file);
    }

    /** One more step of the rendering, none of whose files is the manifest. */
    ghost method Extended(before: Disk, mid: Disk, a: seq<RenderedFile>, b: seq<RenderedFile>, f: Files, g: Files)
      returns (both: Files)
      requires Wrote(tools, before, mid, a, f) && Wrote(tools, mid, disk, b, g)
      requires AllElsewhere(f) && AllElsewhere(g)
      ensures both == f + g && Wrote(tools, before, disk, a + b, both) && AllElsewhere(both)
    {
      WroteThen(tools, before, mid, disk, a, b, f, g);
      UnionElsewhere(f, g);
      both := f + g;
    }
  }

  lemma CleanedKeepsManifest(disk: Disk)
    ensures SameManifest(disk, Cleaned(disk))
  {
    forall tree | tree in TREES
      ensures !(tree <= MANIFEST)
    {
      assert tree in [".agents/", ".opencode/", ".claude/", ".codex/", ".vscode/", ".devcontainer/"];
      assert tree[1] != 'e';
    }
  }

  lemma SameManifestThrough(a: Disk, b: Disk, c: Disk)
    requires SameManifest(a, b) && SameManifest(b, c)
    ensures SameManifest(a, c)
  {
  }

  lemma FailedAfter(tools: Tools, before: Disk, mid: Disk, after: Disk, items: seq<RenderedFile>, files: Files)
    requires Wrote(tools, before, mid, items, files) && AllElsewhere(files) && SameManifest(mid, after)
    ensures SameManifest(before, after)
  {
    WroteElsewhere(tools, before, mid, items, files);
  }
}
