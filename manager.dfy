/** The workspace manager as the main process uses it: the stored config
    file and the file system it works on are fields that each operation
    updates in place. Every method is proved to leave exactly the state the
    matching function of module Workspaces or Config describes, so what is
    proved about those functions holds of the methods. */
module Manager {
  import opened Wrappers
  import opened Json
  import opened Paths
  import opened FileSystem
  import opened Config
  import opened DeepSeek
  import opened Workspaces

  /** What `getWorkspaceOverview` returns. */
  datatype Overview = Overview(baseDirectory: Json, theme: Json, workspaces: seq<WorkspaceInfo>)

  /** The module-level `DEFAULT_CONFIG` object. The program changes it in one
      place: `appendTaskHistory` `unshift`s onto its `taskHistory` array when
      the loaded config shares that array. */
  class DefaultConfig {
    /** The contents of `DEFAULT_CONFIG.taskHistory`. */
    var taskHistory: seq<Json>

    constructor ()
      ensures taskHistory == []
    {
      taskHistory := [];
    }
  }

  class WorkspaceManager {
    /** The directory the process runs in; relative paths resolve against it. */
    const cwd: Path
    /** The file system below the root. */
    var fs: FileSystem
    /** `config.json` in the config directory, if it has been written. */
    var configFile: Option<Config>
    /** `DEFAULT_CONFIG`, which every load spreads under the stored document. */
    const defaults: DefaultConfig

    ghost predicate Valid()
      reads this
    {
      Canonical(cwd) && WellFormed(fs)
    }

    constructor (cwd: Path, fs: FileSystem, configFile: Option<Config>, defaults: DefaultConfig)
      requires Canonical(cwd) && WellFormed(fs)
      ensures Valid()
      ensures this.cwd == cwd && this.fs == fs && this.configFile == configFile && this.defaults == defaults
    {
      this.cwd := cwd;
      this.fs := fs;
      this.configFile := configFile;
      this.defaults := defaults;
    }

    // ---- the config file --------------------------------------------------

    /** `ensureConfig`: writes the defaults when there is no config file. */
    method EnsureConfig()
      modifies this
      ensures configFile == Some(StoredOrDefault(defaults.taskHistory, old(configFile)))
      ensures fs == old(fs)
    {
      if configFile.None? {
        configFile := Some(Defaults(defaults.taskHistory));
      }
    }

    /** `loadConfig`. */
    method LoadConfig() returns (c: Config)
      modifies this
      ensures c == Loaded(defaults.taskHistory, old(configFile))
      ensures configFile == Some(StoredOrDefault(defaults.taskHistory, old(configFile)))
      ensures fs == old(fs)
    {
      EnsureConfig();
      c := Spread(Defaults(defaults.taskHistory), configFile.value);
    }

    /** `saveConfig`. */
    method SaveConfig(c: Config) returns (saved: Config)
      modifies this
      ensures saved == c && configFile == Some(c)
      ensures fs == old(fs)
    {
      EnsureConfig();
      configFile := Some(c);
      saved := c;
    }

    /** `updateConfig`: the loaded document with the partial spread over it,
        saved and returned. */
    method UpdateConfig(partial: Config) returns (updated: Config)
      modifies this
      ensures updated == Spread(Loaded(defaults.taskHistory, old(configFile)), partial)
      ensures configFile == Some(updated)
      ensures fs == old(fs)
    {
      var c := LoadConfig();
      updated := Spread(c, partial);
      updated := SaveConfig(updated);
    }

    /** `setBaseDirectory`: the value is saved whatever it is; a truthy one is
        then created, and a truthy value that is not a string throws. */
    method SetBaseDirectory(v: Json) returns (r: Result<Config, WsError>)
      requires Valid()
      modifies this
      ensures Valid()
      ensures configFile == Some(Spread(Loaded(defaults.taskHistory, old(configFile)), map["baseDirectory" := v]))
      ensures !Truthy(v) ==> fs == old(fs) && r == Success(configFile.value)
      ensures Truthy(v) && !v.JStr? ==> fs == old(fs) && r == Failure(BaseNotAString)
      ensures Truthy(v) && v.JStr? ==>
                var m := MkdirP(old(fs), Resolve(cwd, [v.s]));
                && (m.Success? ==> fs == m.value && r == Success(configFile.value))
                && (m.Failure? ==> fs == old(fs) && r == Failure(Fs(m.error)))
    {
      var c := UpdateConfig(map["baseDirectory" := v]);
      if !Truthy(v) {
        return Success(c);
      }
      if !v.JStr? {
        return Failure(BaseNotAString);
      }
      var p := Resolve(cwd, [v.s]);
      var m := MkdirP(fs, p);
      if m.Failure? {
        return Failure(Fs(m.error));
      }
      MkdirPWellFormed(fs, p);
      fs := m.value;
      r := Success(c);
    }

    // ---- workspaces -------------------------------------------------------

    /** The loop of `ensureWorkspaceStructure`: `mkdirp` of each folder
        below `w`, in order, until one throws. */
    method MakeFoldersBelow(w: Path, folders: seq<string>) returns (r: Result<(), WsError>)
      requires Valid() && Canonical(w)
      requires forall i :: 0 <= i < |folders| ==> IsName(folders[i])
      modifies this
      ensures Valid() && configFile == old(configFile)
      ensures var o := MakeFolders(old(fs), w, folders);
              fs == o.fs && r == o.result
    {
      ghost var fs0 := fs;
      var i := 0;
      while i < |folders|
        invariant 0 <= i <= |folders|
        invariant Valid() && configFile == old(configFile)
        invariant MakeFolders(fs0, w, folders[..i]) == Outcome(fs, Success(()))
      {
        var p := w + [folders[i]];
        var m := MkdirP(fs, p);
        MakeFoldersStep(fs0, w, folders, i, fs);
        if m.Failure? {
          MakeFoldersStops(fs0, w, folders, i + 1);
          return Failure(Fs(m.error));
        }
        ChildCanonical(w, folders[i]);
        MkdirPWellFormed(fs, p);
        fs := m.value;
        i := i + 1;
      }
      assert folders[..i] == folders;
      r := Success(());
    }

    /** `ensureWorkspaceStructure(workspacePath)`: the three folders in order,
        then `task.json` when it is missing. */
    method EnsureWorkspaceStructure(workspacePath: string, now: string) returns (r: Result<(), WsError>)
      requires Valid()
      modifies this
      ensures Valid() && configFile == old(configFile)
      ensures var o := Structure(old(fs), Resolve(cwd, [workspacePath]), BaseName(workspacePath), now);
              fs == o.fs && r == o.result
    {
      var w := Resolve(cwd, [workspacePath]);
      FoldersAreNames();
      r := MakeFoldersBelow(w, REQUIRED_FOLDERS);
      if r.Failure? {
        return;
      }
      var t := w + [TASK_FILE];
      if !Exists(fs, t) {
        var metadata := NewMetadata(BaseName(workspacePath), now);
        var wr := WriteDoc(fs, t, metadata);
        if wr.Failure? {
          return Failure(Fs(wr.error));
        }
        FoldersAreNames();
        ChildCanonical(w, TASK_FILE);
        WriteDocWellFormed(fs, t, metadata);
        fs := wr.value;
      }
    }

    /** `listWorkspaces(baseDirectory)`, where `listing` is what `readdir`
        gives for the base directory: every listed directory is given its
        structure and reported with its metadata. */
    method ListWorkspaces(baseDirectory: Json, listing: seq<string>, now: string)
      returns (r: Result<seq<WorkspaceInfo>, WsError>)
      requires Valid()
      modifies this
      ensures Valid() && configFile == old(configFile)
      ensures var o := Workspaces.ListWorkspaces(old(fs), cwd, baseDirectory, listing, now);
              fs == o.fs && r == o.result
    {
      if !BaseOf(baseDirectory).At? {
        return Success([]);
      }
      var b := BaseOf(baseDirectory).dir;
      var root := Resolve(cwd, [b]);
      if !Exists(fs, root) {
        return Success([]);
      }
      if !IsDir(fs, root) {
        return Failure(Fs(NotADirectory(root)));
      }
      r := ListEntriesBelow(b, listing, now);
    }

    /** The loop of `listWorkspaces` over the entries of the base directory
        `base`. */
    method ListEntriesBelow(base: string, listing: seq<string>, now: string)
      returns (r: Result<seq<WorkspaceInfo>, WsError>)
      requires Valid()
      modifies this
      ensures Valid() && configFile == old(configFile)
      ensures var o := ListEntries(old(fs), cwd, base, listing, now);
              fs == o.fs && r == o.result
    {
      ghost var fs0 := fs;
      var found: seq<WorkspaceInfo> := [];
      var i := 0;
      while i < |listing|
        invariant 0 <= i <= |listing|
        invariant Valid() && configFile == old(configFile)
        invariant ListEntries(fs0, cwd, base, listing[..i], now) == Outcome(fs, Success(found))
      {
        var entry := listing[i];
        var w := Resolve(cwd, [Joined(base, entry)]);
        ListEntriesStep(fs0, cwd, base, listing, i, now, fs, found);
        if IsDir(fs, w) {
          var st := EnsureWorkspaceStructure(Joined(base, entry), now);
          if st.Failure? {
            ListEntriesStops(fs0, cwd, base, listing, i + 1, now);
            return Failure(st.error);
          }
          found := found + [WorkspaceInfo(entry, w, Metadata(fs, w))];
        }
        i := i + 1;
      }
      assert listing[..i] == listing;
      r := Success(found);
    }

    /** `getWorkspaceOverview`: the base directory, the theme and the listing
        of the loaded config. */
    method GetWorkspaceOverview(listing: seq<string>, now: string) returns (r: Result<Overview, WsError>)
      requires Valid()
      modifies this
      ensures Valid() && configFile == Some(StoredOrDefault(defaults.taskHistory, old(configFile)))
      ensures var c := Loaded(defaults.taskHistory, old(configFile));
              var o := Workspaces.ListWorkspaces(old(fs), cwd, BaseDirectoryOf(c), listing, now);
              && fs == o.fs
              && (o.result.Success? ==> r == Success(Overview(c["baseDirectory"], c["theme"], o.result.value)))
              && (o.result.Failure? ==> r == Failure(o.result.error))
    {
      var c := LoadConfig();
      var ws := ListWorkspaces(BaseDirectoryOf(c), listing, now);
      if ws.Failure? {
        return Failure(ws.error);
      }
      r := Success(Overview(c["baseDirectory"], c["theme"], ws.value));
    }

    /** `createWorkspace(name)`: the empty name is refused before the config
        is loaded. */
    method CreateWorkspace(name: string, now: string) returns (r: Result<WorkspaceRef, WsError>)
      requires Valid()
      modifies this
      ensures Valid()
      ensures configFile == if name == "" then old(configFile) else Some(StoredOrDefault(defaults.taskHistory, old(configFile)))
      ensures var o := Create(old(fs), cwd, Loaded(defaults.taskHistory, old(configFile)), name, now);
              fs == o.fs && r == o.result
    {
      if name == "" {
        return Failure(NameRequired);
      }
      var c := LoadConfig();
      match BaseOf(BaseDirectoryOf(c))
      case Unset => return Failure(BaseNotSet);
      case NotAString => return Failure(BaseNotAString);
      case At(b) =>
        var w := Resolve(cwd, [Joined(b, name)]);
        if Exists(fs, w) {
          return Failure(AlreadyExists);
        }
        var m := MkdirP(fs, w);
        if m.Failure? {
          return Failure(Fs(m.error));
        }
        MkdirPWellFormed(fs, w);
        fs := m.value;
        var st := EnsureWorkspaceStructure(Joined(b, name), now);
        if st.Failure? {
          return Failure(st.error);
        }
        r := Success(WorkspaceRef(name, w));
    }

    /** `renameWorkspace(oldName, newName)`: moves the directory, then sets
        `name` and `updatedAt` in its `task.json` when it has one. */
    method RenameWorkspace(oldName: string, newName: string, now: string) returns (r: Result<(string, string), WsError>)
      requires Valid()
      modifies this
      ensures Valid() && configFile == Some(StoredOrDefault(defaults.taskHistory, old(configFile)))
      ensures var o := Rename(old(fs), cwd, Loaded(defaults.taskHistory, old(configFile)), oldName, newName, now);
              fs == o.fs && r == o.result
    {
      var c := LoadConfig();
      match BaseOf(BaseDirectoryOf(c))
      case Unset => return Failure(BaseNotSet);
      case NotAString => return Failure(BaseNotAString);
      case At(b) =>
        var from := Resolve(cwd, [Joined(b, oldName)]);
        var to := Resolve(cwd, [Joined(b, newName)]);
        if !Exists(fs, from) {
          return Failure(DoesNotExist);
        }
        if Exists(fs, to) {
          return Failure(NameTaken);
        }
        var m := Move(fs, from, to);
        if m.Failure? {
          return Failure(Fs(m.error));
        }
        MoveWellFormed(fs, from, to);
        fs := m.value;
        var t := Touch(fs, to + [TASK_FILE], map["name" := JStr(newName), "updatedAt" := JStr(now)]);
        TouchWellFormed(fs, to + [TASK_FILE], map["name" := JStr(newName), "updatedAt" := JStr(now)]);
        fs := t.fs;
        if t.result.Failure? {
          return Failure(t.result.error);
        }
        r := Success((oldName, newName));
    }

    /** `deleteWorkspace(name)`: removes the directory and everything in it. */
    method DeleteWorkspace(name: string) returns (r: Result<string, WsError>)
      requires Valid()
      modifies this
      ensures Valid() && configFile == Some(StoredOrDefault(defaults.taskHistory, old(configFile)))
      ensures var o := Delete(old(fs), cwd, Loaded(defaults.taskHistory, old(configFile)), name);
              fs == o.fs && r == o.result
    {
      var c := LoadConfig();
      match BaseOf(BaseDirectoryOf(c))
      case Unset => return Failure(BaseNotSet);
      case NotAString => return Failure(BaseNotAString);
      case At(b) =>
        var w := Resolve(cwd, [Joined(b, name)]);
        if !Exists(fs, w) {
          return Failure(DoesNotExist);
        }
        RemoveWellFormed(fs, w);
        fs := Remove(fs, w);
        r := Success(name);
    }

    /** The loop of `applyGeneratedFiles`: each accepted file is written
        below the workspace, a rejected one is skipped, the first failure
        ends the loop. */
    method WriteGeneratedFiles(workspacePath: string, files: seq<GeneratedFile>) returns (r: Result<(), WsError>)
      requires Valid()
      modifies this
      ensures Valid() && configFile == old(configFile)
      ensures var o := WriteFiles(old(fs), cwd, workspacePath, files);
              fs == o.fs && r == o.result
    {
      ghost var fs0 := fs;
      var i := 0;
      while i < |files|
        invariant 0 <= i <= |files|
        invariant Valid() && configFile == old(configFile)
        invariant WriteFiles(fs0, cwd, workspacePath, files[..i]) == Outcome(fs, Success(()))
      {
        var f := files[i];
        WriteFilesStep(fs0, cwd, workspacePath, files, i, fs);
        if Accepted(cwd, workspacePath, f) {
          var p := Target(cwd, workspacePath, f);
          var out := OutputFile(fs, p, f.content);
          if out.Failure? {
            WriteFilesStops(fs0, cwd, workspacePath, files, i + 1);
            return Failure(Fs(out.error));
          }
          OutputFileWellFormed(fs, p, f.content);
          fs := out.value;
        }
        i := i + 1;
      }
      assert files[..i] == files;
      r := Success(());
    }

    /** `applyGeneratedFiles(workspacePath, files)`: writes each file the guard
        accepts, in order, then stamps `updatedAt` in the workspace's
        `task.json` when it has one. */
    method ApplyGeneratedFiles(workspacePath: string, files: seq<GeneratedFile>, now: string)
      returns (r: Result<(), WsError>)
      requires Valid()
      modifies this
      ensures Valid() && configFile == old(configFile)
      ensures var o := Apply(old(fs), cwd, workspacePath, files, now);
              fs == o.fs && r == o.result
    {
      r := WriteGeneratedFiles(workspacePath, files);
      if r.Failure? {
        return;
      }
      var t := Touch(fs, Resolve(cwd, [workspacePath]) + [TASK_FILE], map["updatedAt" := JStr(now)]);
      TouchWellFormed(fs, Resolve(cwd, [workspacePath]) + [TASK_FILE], map["updatedAt" := JStr(now)]);
      fs := t.fs;
      r := t.result;
    }

    // ---- task history and prompt drafts -----------------------------------

    /** `appendTaskHistory(entry)`: the entry goes first, the list is cut to
        the newest 100 and saved. When the history is the shared default
        array, the uncut `unshift` stays in `DEFAULT_CONFIG`. */
    method AppendTaskHistory(entry: Json) returns (r: Result<seq<Json>, WsError>)
      modifies this, defaults
      ensures var c := Loaded(old(defaults.taskHistory), old(configFile));
              && r == AppendHistory(c, entry)
              && (r.Success? ==> configFile == Some(Spread(c, map["taskHistory" := JArr(r.value)])))
              && (r.Failure? ==> configFile == Some(StoredOrDefault(old(defaults.taskHistory), old(configFile))))
      ensures defaults.taskHistory == DefaultHistoryAfter(old(defaults.taskHistory), old(configFile), entry)
      ensures fs == old(fs)
    {
      // The loaded history is the default array exactly when the file has no history.
      var shared := configFile.Some? && "taskHistory" !in configFile.value;
      ghost var h0 := defaults.taskHistory;
      var c := LoadConfig();
      r := AppendHistory(c, entry);
      if r.Success? {
        if shared {
          defaults.taskHistory := [entry] + defaults.taskHistory;
        }
        var partial := map["taskHistory" := JArr(r.value)];
        HistoryUpdateIgnoresDefaults(defaults.taskHistory, h0, configFile, partial);
        var _ := UpdateConfig(partial);
      }
    }

    /** `getTaskHistory`. */
    method GetTaskHistory() returns (h: Json)
      modifies this
      ensures h == HistoryOf(Loaded(defaults.taskHistory, old(configFile)))
      ensures configFile == Some(StoredOrDefault(defaults.taskHistory, old(configFile))) && fs == old(fs)
    {
      var c := LoadConfig();
      h := HistoryOf(c);
    }

    /** `clearTaskHistory`. */
    method ClearTaskHistory()
      modifies this
      ensures configFile == Some(Spread(Loaded(defaults.taskHistory, old(configFile)), map["taskHistory" := JArr([])]))
      ensures fs == old(fs)
    {
      var _ := UpdateConfig(map["taskHistory" := JArr([])]);
    }

    /** `savePromptDraft(workspacePath, prompt)`. */
    method SavePromptDraft(workspacePath: string, prompt: string)
      modifies this
      ensures var c := Loaded(defaults.taskHistory, old(configFile));
              configFile == Some(Spread(c, DraftUpdate(c, workspacePath, prompt)))
      ensures fs == old(fs)
    {
      var c := LoadConfig();
      var _ := UpdateConfig(DraftUpdate(c, workspacePath, prompt));
    }

    /** `getPromptDraft(workspacePath)`. */
    method GetPromptDraft(workspacePath: string) returns (d: Json)
      modifies this
      ensures d == DraftOf(Loaded(defaults.taskHistory, old(configFile)), workspacePath)
      ensures configFile == Some(StoredOrDefault(defaults.taskHistory, old(configFile))) && fs == old(fs)
    {
      var c := LoadConfig();
      d := DraftOf(c, workspacePath);
    }
  }
}
