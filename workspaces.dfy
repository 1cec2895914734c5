/** The workspace operations of the manager as functions of the file system
    they start from: each gives the file system it leaves behind and what it
    returns or throws. A failing step keeps the effects of the steps before
    it, as the awaited calls in sequence do. The class in module Manager
    runs these step by step. */
module Workspaces {
  import opened Wrappers
  import opened Json
  import opened Paths
  import opened FileSystem
  import opened Config
  import opened DeepSeek
  import opened Text

  /** The folders every workspace gets. */
  const REQUIRED_FOLDERS: seq<string> := ["notes", "generated_code", "assets"]

  /** The metadata file of a workspace. */
  const TASK_FILE: string := "task.json"

  /** What the workspace operations throw. */
  datatype WsError =
    | NameRequired          // 'Workspace name is required'
    | BaseNotSet            // 'Base directory is not set'
    | AlreadyExists         // 'Workspace already exists'
    | DoesNotExist          // 'Workspace does not exist'
    | NameTaken             // 'A workspace with that name already exists'
    | BaseNotAString        // TypeError: a truthy base directory that is not a string
    | HistoryNotAnArray     // TypeError: `unshift` on a truthy history that is not an array
    | Fs(cause: FsError)    // a rejected file-system call

  /** The message of each `Error` the operations throw themselves. */
  function Message(e: WsError): string {
    match e
    case NameRequired => "Workspace name is required"
    case BaseNotSet => "Base directory is not set"
    case AlreadyExists => "Workspace already exists"
    case DoesNotExist => "Workspace does not exist"
    case NameTaken => "A workspace with that name already exists"
    case BaseNotAString => "The \"path\" argument must be of type string"
    case HistoryNotAnArray => "history.unshift is not a function"
    case Fs(_) => "file system error"
  }

  /** The file system after an operation, and its value or what it threw. */
  datatype Outcome<T> = Outcome(fs: FileSystem, result: Result<T, WsError>)

  /** The base directory as the operations see it: falsy, a string, or some
      other truthy value, on which `path.join` throws. */
  datatype Base = Unset | At(dir: string) | NotAString

  /** `config.baseDirectory`. */
  function BaseDirectoryOf(c: Config): Json {
    if "baseDirectory" in c then c["baseDirectory"] else JNull
  }

  function BaseOf(v: Json): (b: Base)
    ensures b.Unset? <==> !Truthy(v)
    ensures b.At? <==> Truthy(v) && v.JStr?
    ensures b.At? ==> b.dir == v.s && b.dir != ""
  {
    if !Truthy(v) then Unset else if v.JStr? then At(v.s) else NotAString
  }

  /** The `task.json` a workspace gets when it has none. */
  function NewMetadata(name: string, now: string): Json {
    JObj(map["name" := JStr(name), "createdAt" := JStr(now), "updatedAt" := JStr(now),
             "description" := JStr("")])
  }

  /** The paths `ensureWorkspaceStructure` may add below a workspace. */
  function Skeleton(w: Path): set<Path> {
    {w + [REQUIRED_FOLDERS[0]], w + [REQUIRED_FOLDERS[1]], w + [REQUIRED_FOLDERS[2]], w + [TASK_FILE]}
  }

  // ---- ensureWorkspaceStructure -------------------------------------------

  /** `mkdirp` of each folder below `w`, in order, stopping at the first failure. */
  function MakeFolders(fs: FileSystem, w: Path, folders: seq<string>): Outcome<()>
    decreases |folders|
  {
    if folders == [] then Outcome(fs, Success(()))
    else
      var o := MakeFolders(fs, w, folders[..|folders| - 1]);
      if o.result.Failure? then o
      else match MkdirP(o.fs, w + [folders[|folders| - 1]])
        case Failure(e) => Outcome(o.fs, Failure(Fs(e)))
        case Success(fs1) => Outcome(fs1, Success(()))
  }

  /** `ensureWorkspaceStructure(workspacePath)` for the workspace at `w` whose
      path string has base name `name`. */
  function Structure(fs: FileSystem, w: Path, name: string, now: string): Outcome<()> {
    var o := MakeFolders(fs, w, REQUIRED_FOLDERS);
    if o.result.Failure? || Exists(o.fs, w + [TASK_FILE]) then o
    else match WriteDoc(o.fs, w + [TASK_FILE], NewMetadata(name, now))
      case Failure(e) => Outcome(o.fs, Failure(Fs(e)))
      case Success(fs1) => Outcome(fs1, Success(()))
  }

  /** `metadata.<key> = value` for each property, as sloppy-mode JavaScript
      does it: an object takes them, `null` throws, any other value ignores them. */
  function SetProps(doc: Json, props: map<string, Json>, at: Path): (r: Result<Json, WsError>)
    ensures doc.JObj? ==> r == Success(JObj(doc.fields + props))
    ensures doc.JNull? ==> r == Failure(Fs(NotAnObject(at)))
    ensures !doc.JObj? && !doc.JNull? ==> r == Success(doc)
  {
    match doc
    case JObj(fields) => Success(JObj(fields + props))
    case JNull => Failure(Fs(NotAnObject(at)))
    case _ => Success(doc)
  }

  /** If `t` exists: read the JSON there, set the properties, write it back. */
  function Touch(fs: FileSystem, t: Path, props: map<string, Json>): Outcome<()> {
    if !Exists(fs, t) then Outcome(fs, Success(()))
    else match ReadJson(fs, t)
      case Failure(e) => Outcome(fs, Failure(Fs(e)))
      case Success(doc) =>
        match SetProps(doc, props, t)
        case Failure(e) => Outcome(fs, Failure(e))
        case Success(d) =>
          match WriteDoc(fs, t, d)
          case Failure(e) => Outcome(fs, Failure(Fs(e)))
          case Success(fs1) => Outcome(fs1, Success(()))
  }

  // ---- listWorkspaces -----------------------------------------------------

  /** One element of the list `listWorkspaces` returns. */
  datatype WorkspaceInfo = WorkspaceInfo(name: string, path: Path, metadata: Json)

  /** `parseWorkspaceMetadata`: the document in `task.json`, or `null` when
      there is none or it cannot be read. */
  function Metadata(fs: FileSystem, w: Path): (m: Json)
    ensures IsFile(fs, w + [TASK_FILE]) && fs[w + [TASK_FILE]].data.Doc? ==> m == fs[w + [TASK_FILE]].data.doc
    ensures !(IsFile(fs, w + [TASK_FILE]) && fs[w + [TASK_FILE]].data.Doc?) ==> m == JNull
  {
    if !Exists(fs, w + [TASK_FILE]) then JNull
    else match ReadJson(fs, w + [TASK_FILE])
      case Success(doc) => doc
      case Failure(_) => JNull
  }

  /** The loop of `listWorkspaces` over the first entries of the listing. */
  function ListEntries(fs: FileSystem, cwd: Path, base: string, entries: seq<string>, now: string)
    : Outcome<seq<WorkspaceInfo>>
    requires Canonical(cwd)
    decreases |entries|
  {
    if entries == [] then Outcome(fs, Success([]))
    else
      var o := ListEntries(fs, cwd, base, entries[..|entries| - 1], now);
      var entry := entries[|entries| - 1];
      var w := Resolve(cwd, [Joined(base, entry)]);
      if o.result.Failure? || !IsDir(o.fs, w) then o
      else
        var st := Structure(o.fs, w, BaseName(Joined(base, entry)), now);
        if st.result.Failure? then Outcome(st.fs, Failure(st.result.error))
        else Outcome(st.fs, Success(o.result.value + [WorkspaceInfo(entry, w, Metadata(st.fs, w))]))
  }

  /** `listWorkspaces(baseDirectory)`, where `listing` is what `readdir` gives
      for the base directory. */
  function ListWorkspaces(fs: FileSystem, cwd: Path, baseDirectory: Json, listing: seq<string>, now: string)
    : Outcome<seq<WorkspaceInfo>>
    requires Canonical(cwd)
  {
    match BaseOf(baseDirectory)
    case Unset => Outcome(fs, Success([]))
    case NotAString => Outcome(fs, Success([]))
    case At(b) =>
      var root := Resolve(cwd, [b]);
      if !Exists(fs, root) then Outcome(fs, Success([]))
      else if !IsDir(fs, root) then Outcome(fs, Failure(Fs(NotADirectory(root))))
      else ListEntries(fs, cwd, b, listing, now)
  }

  /** The directory that listing entry `entry` names, and its base name. */
  lemma EntryPath(cwd: Path, base: string, entry: string)
    requires Canonical(cwd) && IsName(entry)
    ensures Resolve(cwd, [Joined(base, entry)]) == Resolve(cwd, [base]) + [entry]
    ensures BaseName(Joined(base, entry)) == entry
  {
    JoinedChild(cwd, base, entry);
    BaseNameOfJoined(base, entry);
  }

  /** The metadata a listed workspace reports, in terms of the tree before the
      listing: what its `task.json` held, or a fresh document if it had none. */
  function ExpectedMetadata(fs: FileSystem, w: Path, name: string, now: string): Json {
    if w + [TASK_FILE] in fs then Metadata(fs, w) else NewMetadata(name, now)
  }

  /** What `listWorkspaces` is meant to return for the entries below `root`:
      one record per entry that is a directory, in listing order. */
  function Listed(fs: FileSystem, root: Path, entries: seq<string>, now: string): seq<WorkspaceInfo>
    decreases |entries|
  {
    if entries == [] then []
    else
      var e := entries[|entries| - 1];
      Listed(fs, root, entries[..|entries| - 1], now)
        + if IsDir(fs, root + [e]) then [WorkspaceInfo(e, root + [e], ExpectedMetadata(fs, root + [e], e, now))] else []
  }

  /** The listing succeeds when no listed directory has a file where one of its folders goes. */
  predicate ListingFits(fs: FileSystem, root: Path, entries: seq<string>) {
    forall i, j :: 0 <= i < |entries| && 0 <= j < |REQUIRED_FOLDERS| && IsDir(fs, root + [entries[i]]) ==>
      !IsFile(fs, root + [entries[i]] + [REQUIRED_FOLDERS[j]])
  }

  // ---- create, rename, delete ---------------------------------------------

  /** What `createWorkspace` returns. */
  datatype WorkspaceRef = WorkspaceRef(name: string, path: Path)

  function Create(fs: FileSystem, cwd: Path, c: Config, name: string, now: string): Outcome<WorkspaceRef>
    requires Canonical(cwd)
  {
    if name == "" then Outcome(fs, Failure(NameRequired))
    else match BaseOf(BaseDirectoryOf(c))
      case Unset => Outcome(fs, Failure(BaseNotSet))
      case NotAString => Outcome(fs, Failure(BaseNotAString))
      case At(b) =>
        var w := Resolve(cwd, [Joined(b, name)]);
        if Exists(fs, w) then Outcome(fs, Failure(AlreadyExists))
        else Lay(fs, w, name, BaseName(Joined(b, name)), now)
  }

  /** The part of `createWorkspace` past its checks: `mkdirp` of the new
      directory, then its structure with metadata named `n`. */
  function Lay(fs: FileSystem, w: Path, name: string, n: string, now: string): Outcome<WorkspaceRef> {
    match MkdirP(fs, w)
    case Failure(e) => Outcome(fs, Failure(Fs(e)))
    case Success(fs1) =>
      var st := Structure(fs1, w, n, now);
      if st.result.Failure? then Outcome(st.fs, Failure(st.result.error))
      else Outcome(st.fs, Success(WorkspaceRef(name, w)))
  }

  function Rename(fs: FileSystem, cwd: Path, c: Config, oldName: string, newName: string, now: string)
    : Outcome<(string, string)>
    requires Canonical(cwd)
  {
    match BaseOf(BaseDirectoryOf(c))
    case Unset => Outcome(fs, Failure(BaseNotSet))
    case NotAString => Outcome(fs, Failure(BaseNotAString))
    case At(b) =>
      var from := Resolve(cwd, [Joined(b, oldName)]);
      var to := Resolve(cwd, [Joined(b, newName)]);
      if !Exists(fs, from) then Outcome(fs, Failure(DoesNotExist))
      else if Exists(fs, to) then Outcome(fs, Failure(NameTaken))
      else Relocate(fs, from, to, oldName, newName, now)
  }

  /** The part of `renameWorkspace` past its checks: the move, then `name`
      and `updatedAt` set in the moved `task.json`. */
  function Relocate(fs: FileSystem, from: Path, to: Path, oldName: string, newName: string, now: string)
    : Outcome<(string, string)>
    requires to != []
  {
    match Move(fs, from, to)
    case Failure(e) => Outcome(fs, Failure(Fs(e)))
    case Success(fs1) =>
      var t := Touch(fs1, to + [TASK_FILE], map["name" := JStr(newName), "updatedAt" := JStr(now)]);
      if t.result.Failure? then Outcome(t.fs, Failure(t.result.error))
      else Outcome(t.fs, Success((oldName, newName)))
  }

  function Delete(fs: FileSystem, cwd: Path, c: Config, name: string): Outcome<string>
    requires Canonical(cwd)
  {
    match BaseOf(BaseDirectoryOf(c))
    case Unset => Outcome(fs, Failure(BaseNotSet))
    case NotAString => Outcome(fs, Failure(BaseNotAString))
    case At(b) =>
      var w := Resolve(cwd, [Joined(b, name)]);
      if !Exists(fs, w) then Outcome(fs, Failure(DoesNotExist))
      else Outcome(Remove(fs, w), Success(name))
  }

  // ---- applyGeneratedFiles ------------------------------------------------

  /** `path.resolve(workspacePath, file.path)`. */
  function Target(cwd: Path, ws: string, f: GeneratedFile): Path
    requires Canonical(cwd)
  {
    Resolve(cwd, [ws, f.path])
  }

  /** The guard: the resolved target, as a string, starts with `path.resolve(workspacePath)`. */
  predicate Accepted(cwd: Path, ws: string, f: GeneratedFile)
    requires Canonical(cwd)
  {
    PrefixGuard(Target(cwd, ws, f), Resolve(cwd, [ws]))
  }

  /** The loop of `applyGeneratedFiles` over the first files. */
  function WriteFiles(fs: FileSystem, cwd: Path, ws: string, files: seq<GeneratedFile>): Outcome<()>
    requires Canonical(cwd)
    decreases |files|
  {
    if files == [] then Outcome(fs, Success(()))
    else WriteOne(WriteFiles(fs, cwd, ws, files[..|files| - 1]), cwd, ws, files[|files| - 1])
  }

  /** One turn of the loop of `applyGeneratedFiles`: a failure stops the loop,
      a rejected file is skipped, an accepted one is written. */
  function WriteOne(o: Outcome<()>, cwd: Path, ws: string, f: GeneratedFile): Outcome<()>
    requires Canonical(cwd)
  {
    if o.result.Failure? || !Accepted(cwd, ws, f) then o
    else match OutputFile(o.fs, Target(cwd, ws, f), f.content)
      case Failure(e) => Outcome(o.fs, Failure(Fs(e)))
      case Success(fs1) => Outcome(fs1, Success(()))
  }

  /** `applyGeneratedFiles(workspacePath, files)`. */
  function Apply(fs: FileSystem, cwd: Path, ws: string, files: seq<GeneratedFile>, now: string): Outcome<()>
    requires Canonical(cwd)
  {
    var o := WriteFiles(fs, cwd, ws, files);
    if o.result.Failure? then o
    else Touch(o.fs, Resolve(cwd, [ws]) + [TASK_FILE], map["updatedAt" := JStr(now)])
  }

  // ---- task history -------------------------------------------------------

  /** The list `appendTaskHistory` saves and returns, or the TypeError of
      `unshift` on a stored history that is truthy but not an array. */
  function AppendHistory(c: Config, entry: Json): (r: Result<seq<Json>, WsError>)
    ensures HistoryOf(c).JArr? <==> r.Success?
    ensures r.Success? ==> r.value == PushHistory(entry, HistoryOf(c).items)
    ensures r.Failure? ==> r.error == HistoryNotAnArray
  {
    match HistoryOf(c)
    case JArr(items) => Success(PushHistory(entry, items))
    case _ => Failure(HistoryNotAnArray)
  }

  /** The history `loadConfig` returns is the array of `DEFAULT_CONFIG` itself:
      the config file exists and has no `taskHistory` key. (Defaults written
      to a missing file are read back as a copy.) */
  predicate SharesDefaultHistory(file: Option<Config>) {
    file.Some? && "taskHistory" !in file.value
  }

  /** The contents of `DEFAULT_CONFIG.taskHistory` after
      `appendTaskHistory(entry)`: `unshift` on the shared array puts the entry
      at its front, uncut; on any other history the default is untouched. */
  function DefaultHistoryAfter(history: seq<Json>, file: Option<Config>, entry: Json): seq<Json> {
    if SharesDefaultHistory(file) then [entry] + history else history
  }

  /** On a config file without a history, the append succeeds and the entry
      stays in the default: a config file removed later is rewritten holding
      it, and any later file without a history loads it. */
  lemma DefaultHistoryLeaks(history: seq<Json>, stored: Config, entry: Json, later: Config)
    requires "taskHistory" !in stored && "taskHistory" !in later
    ensures AppendHistory(Loaded(history, Some(stored)), entry) == Success(PushHistory(entry, history))
    ensures var h := DefaultHistoryAfter(history, Some(stored), entry);
            && HistoryOf(Loaded(h, None)) == JArr([entry] + history)
            && HistoryOf(Loaded(h, Some(later))) == JArr([entry] + history)
  {
    LoadBackfillsDefaults(history, stored);
    LoadBackfillsDefaults([entry] + history, later);
  }
  // ---- what ensureWorkspaceStructure does ---------------------------------

  /** The folders are names, so each lies directly below the workspace. */
  lemma FoldersAreNames()
    ensures forall i :: 0 <= i < |REQUIRED_FOLDERS| ==> IsName(REQUIRED_FOLDERS[i])
    ensures IsName(TASK_FILE)
  {
    assert forall i :: 0 <= i < |REQUIRED_FOLDERS| ==> '/' !in REQUIRED_FOLDERS[i];
    assert '/' !in TASK_FILE;
  }

  /** A folder below a canonical workspace path is canonical. */
  lemma ChildCanonical(w: Path, f: string)
    requires Canonical(w) && IsName(f)
    ensures Canonical(w + [f])
  {
    var p := w + [f];
    forall i | 0 <= i < |p| ensures IsName(p[i]) {
      if i < |w| { assert p[i] == w[i]; }
    }
  }

  lemma ChainTop(fs: FileSystem, w: Path)
    requires DirChain(fs, w)
    ensures IsDir(fs, w)
  {
    assert w[..|w|] == w;
  }

  lemma ParentOfChild(w: Path, f: string)
    ensures Parent(w + [f]) == w
  {
  }

  /** `task.json` is none of the folders. */
  lemma TaskIsNoFolder(w: Path)
    ensures forall i :: 0 <= i < |REQUIRED_FOLDERS| ==> w + [REQUIRED_FOLDERS[i]] != w + [TASK_FILE]
  {
    forall i | 0 <= i < |REQUIRED_FOLDERS| ensures w + [REQUIRED_FOLDERS[i]] != w + [TASK_FILE] {
      assert |REQUIRED_FOLDERS[i]| != |TASK_FILE|;
      assert (w + [REQUIRED_FOLDERS[i]])[|w|] == REQUIRED_FOLDERS[i];
    }
  }

  /** Making the folders keeps every stored entry and adds only directories
      directly below `w`, one per folder. */
  lemma {:induction false} MakeFoldersKeeps(fs: FileSystem, w: Path, folders: seq<string>)
    requires DirChain(fs, w)
    ensures var o := MakeFolders(fs, w, folders);
            && (forall q :: q in fs ==> q in o.fs && o.fs[q] == fs[q])
            && (forall q :: q in o.fs && q !in fs ==> o.fs[q] == Dir && exists i :: 0 <= i < |folders| && q == w + [folders[i]])
    decreases |folders|
  {
    if folders != [] {
      var init := folders[..|folders| - 1];
      var last := folders[|folders| - 1];
      MakeFoldersKeeps(fs, w, init);
      var o := MakeFolders(fs, w, init);
      forall q | q in o.fs && q !in fs
        ensures exists i :: 0 <= i < |folders| && q == w + [folders[i]]
      {
        var i :| 0 <= i < |init| && q == w + [init[i]];
        assert folders[i] == init[i];
      }
      if o.result.Success? {
        assert DirChain(o.fs, w);
        MkdirChild(o.fs, w, last);
        assert w + [last] == w + [folders[|folders| - 1]];
      }
    }
  }

  /** Making the folders fails exactly when a file stands where one goes. */
  lemma {:induction false} MakeFoldersSucceeds(fs: FileSystem, w: Path, folders: seq<string>)
    requires DirChain(fs, w)
    ensures MakeFolders(fs, w, folders).result.Success? <==>
              forall i :: 0 <= i < |folders| ==> !IsFile(fs, w + [folders[i]])
    decreases |folders|
  {
    if folders != [] {
      var init := folders[..|folders| - 1];
      var last := folders[|folders| - 1];
      MakeFoldersSucceeds(fs, w, init);
      MakeFoldersKeeps(fs, w, init);
      var o := MakeFolders(fs, w, init);
      var p := w + [last];
      if o.result.Success? {
        assert DirChain(o.fs, w);
        MkdirChild(o.fs, w, last);
        assert IsFile(o.fs, p) <==> IsFile(fs, p) by {
          if p in o.fs && p !in fs {
            assert o.fs[p] == Dir;
          }
        }
        if !IsFile(fs, p) {
          forall i | 0 <= i < |folders| ensures !IsFile(fs, w + [folders[i]]) {
            if i < |init| {
              assert folders[i] == init[i];
            } else {
              assert i == |folders| - 1;
            }
          }
        }
      } else {
        var i :| 0 <= i < |init| && IsFile(fs, w + [init[i]]);
        assert init[i] == folders[i];
      }
    }
  }

  /** When making the folders succeeds, each folder is a directory. */
  lemma {:induction false} MakeFoldersMade(fs: FileSystem, w: Path, folders: seq<string>)
    requires DirChain(fs, w)
    requires MakeFolders(fs, w, folders).result.Success?
    ensures forall f :: f in folders ==> IsDir(MakeFolders(fs, w, folders).fs, w + [f])
    ensures DirChain(MakeFolders(fs, w, folders).fs, w)
    decreases |folders|
  {
    if folders != [] {
      var init := folders[..|folders| - 1];
      var last := folders[|folders| - 1];
      var o := MakeFolders(fs, w, init);
      MakeFoldersMade(fs, w, init);
      var r := MakeFolders(fs, w, folders);
      assert r.fs == MkdirP(o.fs, w + [last]).value;
      MkdirKeepsDirs(o.fs, w, last);
      forall f | f in folders ensures IsDir(r.fs, w + [f]) {
        InInitOrLast(folders, f);
      }
    }
  }

  /** An element of a non-empty sequence is its last one or one before it. */
  lemma InInitOrLast<T>(s: seq<T>, x: T)
    requires x in s
    ensures x == s[|s| - 1] || x in s[..|s| - 1]
  {
    var i :| 0 <= i < |s| && s[i] == x;
    if i < |s| - 1 {
      assert s[..|s| - 1][i] == x;
    }
  }

  /** A successful `mkdirp` of a child of `w` makes it a directory and keeps
      every directory. */
  lemma MkdirKeepsDirs(fs: FileSystem, w: Path, f: string)
    requires DirChain(fs, w) && MkdirP(fs, w + [f]).Success?
    ensures IsDir(MkdirP(fs, w + [f]).value, w + [f])
    ensures forall q :: IsDir(fs, q) ==> IsDir(MkdirP(fs, w + [f]).value, q)
  {
    MkdirChild(fs, w, f);
  }

  /** Making the folders of a workspace keeps the tree well formed. */
  lemma MakeFoldersWellFormed(fs: FileSystem, w: Path, folders: seq<string>)
    requires WellFormed(fs) && Canonical(w) && IsDir(fs, w)
    requires forall i :: 0 <= i < |folders| ==> IsName(folders[i])
    ensures WellFormed(MakeFolders(fs, w, folders).fs)
  {
    DirHasChain(fs, w);
    MakeFoldersKeeps(fs, w, folders);
    var o := MakeFolders(fs, w, folders);
    forall q | q in o.fs ensures q != [] && Canonical(q) && IsDir(o.fs, Parent(q)) {
      if q !in fs {
        var i :| 0 <= i < |folders| && q == w + [folders[i]];
        ChildCanonical(w, folders[i]);
        assert Parent(q) == w;
      }
    }
  }

  /** `ensureWorkspaceStructure` on an existing directory fails exactly when a
      file stands where one of the folders goes. */
  lemma StructureSucceeds(fs: FileSystem, w: Path, name: string, now: string)
    requires DirChain(fs, w)
    ensures Structure(fs, w, name, now).result.Success? <==>
              forall i :: 0 <= i < |REQUIRED_FOLDERS| ==> !IsFile(fs, w + [REQUIRED_FOLDERS[i]])
  {
    MakeFoldersSucceeds(fs, w, REQUIRED_FOLDERS);
    MakeFoldersKeeps(fs, w, REQUIRED_FOLDERS);
    var m := MakeFolders(fs, w, REQUIRED_FOLDERS);
    assert DirChain(m.fs, w);
    assert IsDir(m.fs, w) by { assert w[..|w|] == w; }
    assert Parent(w + [TASK_FILE]) == w;
  }

  /** `ensureWorkspaceStructure` keeps every stored entry as it was and adds
      new entries only at the skeleton paths, whether or not it succeeds. */
  lemma StructureKeeps(fs: FileSystem, w: Path, name: string, now: string)
    requires DirChain(fs, w)
    ensures var o := Structure(fs, w, name, now);
            && (forall q :: q in fs ==> q in o.fs && o.fs[q] == fs[q])
            && (forall q :: q in o.fs && q !in fs ==> q in Skeleton(w))
  {
    MakeFoldersKeeps(fs, w, REQUIRED_FOLDERS);
    var m := MakeFolders(fs, w, REQUIRED_FOLDERS);
    var t := w + [TASK_FILE];
    var o := Structure(fs, w, name, now);
    assert o.fs == m.fs || (t !in m.fs && o.fs == m.fs[t := File(Doc(NewMetadata(name, now)))]);
    forall q | q in o.fs && q !in fs ensures q in Skeleton(w) {
      if q in m.fs {
        var i :| 0 <= i < |REQUIRED_FOLDERS| && q == w + [REQUIRED_FOLDERS[i]];
        assert i == 0 || i == 1 || i == 2;
      }
    }
  }

  /** After a successful `ensureWorkspaceStructure` the three folders are directories. */
  lemma StructureFolders(fs: FileSystem, w: Path, name: string, now: string)
    requires DirChain(fs, w)
    requires Structure(fs, w, name, now).result.Success?
    ensures forall i :: 0 <= i < |REQUIRED_FOLDERS| ==>
              IsDir(Structure(fs, w, name, now).fs, w + [REQUIRED_FOLDERS[i]])
  {
    MakeFoldersKeeps(fs, w, REQUIRED_FOLDERS);
    MakeFoldersMade(fs, w, REQUIRED_FOLDERS);
    TaskIsNoFolder(w);
    forall i | 0 <= i < |REQUIRED_FOLDERS| ensures REQUIRED_FOLDERS[i] in REQUIRED_FOLDERS {
    }
  }

  /** After a successful `ensureWorkspaceStructure`, `task.json` exists:
      freshly written with the base name and an empty description if it was
      absent, untouched if it was there. */
  lemma StructureTask(fs: FileSystem, w: Path, name: string, now: string)
    requires DirChain(fs, w)
    requires Structure(fs, w, name, now).result.Success?
    ensures var o := Structure(fs, w, name, now);
            && w + [TASK_FILE] in o.fs
            && (w + [TASK_FILE] !in fs ==> o.fs[w + [TASK_FILE]] == File(Doc(NewMetadata(name, now))))
            && (w + [TASK_FILE] in fs ==> o.fs[w + [TASK_FILE]] == fs[w + [TASK_FILE]])
  {
    MakeFoldersKeeps(fs, w, REQUIRED_FOLDERS);
    var m := MakeFolders(fs, w, REQUIRED_FOLDERS);
    var t := w + [TASK_FILE];
    TaskIsNoFolder(w);
    assert t in m.fs <==> t in fs;
    if t !in fs {
      ChainTop(fs, w);
      assert IsDir(m.fs, w);
      ParentOfChild(w, TASK_FILE);
    }
  }

  /** `ensureWorkspaceStructure` keeps the tree well formed. */
  lemma StructureWellFormed(fs: FileSystem, w: Path, name: string, now: string)
    requires WellFormed(fs) && Canonical(w) && IsDir(fs, w)
    ensures WellFormed(Structure(fs, w, name, now).fs)
  {
    FoldersAreNames();
    MakeFoldersWellFormed(fs, w, REQUIRED_FOLDERS);
    var m := MakeFolders(fs, w, REQUIRED_FOLDERS);
    var t := w + [TASK_FILE];
    if m.result.Success? && !Exists(m.fs, t) && WriteDoc(m.fs, t, NewMetadata(name, now)).Success? {
      ChildCanonical(w, TASK_FILE);
      WriteDocWellFormed(m.fs, t, NewMetadata(name, now));
    }
  }

  /** Making folders that are all directories already changes nothing. */
  lemma {:induction false} MakeFoldersExisting(fs: FileSystem, w: Path, folders: seq<string>)
    requires DirChain(fs, w)
    requires forall i :: 0 <= i < |folders| ==> IsDir(fs, w + [folders[i]])
    ensures MakeFolders(fs, w, folders) == Outcome(fs, Success(()))
    decreases |folders|
  {
    if folders != [] {
      var init := folders[..|folders| - 1];
      forall i | 0 <= i < |init| ensures IsDir(fs, w + [init[i]]) {
        assert init[i] == folders[i];
      }
      MakeFoldersExisting(fs, w, init);
      MkdirChild(fs, w, folders[|folders| - 1]);
    }
  }

  /** A directory chain survives any change that keeps the stored entries. */
  lemma ChainKept(fs: FileSystem, fs1: FileSystem, w: Path)
    requires DirChain(fs, w)
    requires forall q :: q in fs ==> q in fs1 && fs1[q] == fs[q]
    ensures DirChain(fs1, w)
  {
    forall k | 0 <= k <= |w| ensures IsDir(fs1, w[..k]) {
      assert IsDir(fs, w[..k]);
    }
  }

  /** A second `ensureWorkspaceStructure` changes nothing and succeeds. */
  lemma StructureAgain(fs: FileSystem, w: Path, name: string, now: string, name2: string, now2: string)
    requires DirChain(fs, w)
    requires Structure(fs, w, name, now).result.Success?
    ensures var fs1 := Structure(fs, w, name, now).fs;
            Structure(fs1, w, name2, now2) == Outcome(fs1, Success(()))
  {
    var fs1 := Structure(fs, w, name, now).fs;
    StructureKeeps(fs, w, name, now);
    StructureFolders(fs, w, name, now);
    StructureTask(fs, w, name, now);
    ChainKept(fs, fs1, w);
    MakeFoldersExisting(fs1, w, REQUIRED_FOLDERS);
  }

  /** What `ensureWorkspaceStructure` adds: folders as directories, and
      `task.json` as the fresh document. */
  lemma StructureAdds(fs: FileSystem, w: Path, name: string, now: string)
    requires DirChain(fs, w)
    ensures var o := Structure(fs, w, name, now);
            forall q :: q in o.fs && q !in fs ==>
              |q| == |w| + 1 && q[..|w|] == w &&
              if q[|w|] == TASK_FILE then o.fs[q] == File(Doc(NewMetadata(name, now))) else o.fs[q] == Dir
  {
    MakeFoldersKeeps(fs, w, REQUIRED_FOLDERS);
    var m := MakeFolders(fs, w, REQUIRED_FOLDERS);
    var t := w + [TASK_FILE];
    TaskIsNoFolder(w);
    var o := Structure(fs, w, name, now);
    assert o.fs == m.fs || (t !in m.fs && o.fs == m.fs[t := File(Doc(NewMetadata(name, now)))]);
    forall q | q in o.fs && q !in fs
      ensures |q| == |w| + 1 && q[..|w|] == w
      ensures if q[|w|] == TASK_FILE then o.fs[q] == File(Doc(NewMetadata(name, now))) else o.fs[q] == Dir
    {
      if q in m.fs {
        var i :| 0 <= i < |REQUIRED_FOLDERS| && q == w + [REQUIRED_FOLDERS[i]];
        assert q[|w|] == REQUIRED_FOLDERS[i];
        assert i == 0 || i == 1 || i == 2;
      } else {
        assert q == t;
      }
    }
  }

  // ---- what listWorkspaces does -------------------------------------------

  /** An entry the listing may have added below `root`: a folder directory, or
      the fresh `task.json` of the workspace it lies in. */
  predicate AddedBelow(root: Path, now: string, q: Path, node: Node) {
    |q| == |root| + 2 && q[..|root|] == root &&
    if q[|root| + 1] == TASK_FILE then node == File(Doc(NewMetadata(q[|root|], now))) else node == Dir
  }

  /** `g` keeps every entry of `fs` and adds only entries the listing may add. */
  predicate GrownBelow(fs: FileSystem, g: FileSystem, root: Path, now: string) {
    && (forall q :: q in fs ==> q in g && g[q] == fs[q])
    && (forall q :: q in g && q !in fs ==> AddedBelow(root, now, q, g[q]))
  }

  /** One entry of the listing grows the tree only as the listing may. */
  lemma ListStepGrows(fs: FileSystem, g: FileSystem, root: Path, e: string, now: string)
    requires DirChain(g, root + [e]) && GrownBelow(fs, g, root, now)
    ensures GrownBelow(fs, Structure(g, root + [e], e, now).fs, root, now)
  {
    var w := root + [e];
    StructureKeeps(g, w, e, now);
    StructureAdds(g, w, e, now);
    var st := Structure(g, w, e, now);
    forall q | q in st.fs && q !in fs ensures AddedBelow(root, now, q, st.fs[q]) {
      if q !in g {
        AddedOfChild(root, e, now, q, st.fs[q]);
      } else {
        assert st.fs[q] == g[q];
      }
    }
  }

  lemma AddedOfChild(root: Path, e: string, now: string, q: Path, node: Node)
    requires |q| == |root| + 2 && q[..|root| + 1] == root + [e]
    requires if q[|root| + 1] == TASK_FILE then node == File(Doc(NewMetadata(e, now))) else node == Dir
    ensures AddedBelow(root, now, q, node)
  {
    assert q[..|root|] == (root + [e])[..|root|];
    assert q[|root|] == (root + [e])[|root|];
  }

  /** One entry of the listing, on a tree grown by the entries before it. */
  lemma ListStep(fs: FileSystem, g: FileSystem, root: Path, e: string, now: string)
    requires WellFormed(g) && Canonical(root) && IsName(e) && IsDir(g, root + [e])
    requires GrownBelow(fs, g, root, now)
    ensures var st := Structure(g, root + [e], e, now);
            GrownBelow(fs, st.fs, root, now) && WellFormed(st.fs)
  {
    ChildCanonical(root, e);
    DirHasChain(g, root + [e]);
    ListStepGrows(fs, g, root, e, now);
    StructureWellFormed(g, root + [e], e, now);
  }

  /** The listing below an existing directory keeps every stored entry, adds
      only folders and fresh `task.json` files two levels below it, and keeps
      the tree well formed. */
  lemma {:induction false} ListKeeps(fs: FileSystem, cwd: Path, base: string, entries: seq<string>, now: string)
    requires WellFormed(fs) && Canonical(cwd) && IsDir(fs, Resolve(cwd, [base]))
    requires forall i :: 0 <= i < |entries| ==> IsName(entries[i])
    ensures var o := ListEntries(fs, cwd, base, entries, now);
            GrownBelow(fs, o.fs, Resolve(cwd, [base]), now) && WellFormed(o.fs)
    decreases |entries|
  {
    if entries != [] {
      var init := entries[..|entries| - 1];
      var e := entries[|entries| - 1];
      ListKeeps(fs, cwd, base, init, now);
      var o := ListEntries(fs, cwd, base, init, now);
      EntryPath(cwd, base, e);
      var root := Resolve(cwd, [base]);
      if o.result.Success? && IsDir(o.fs, root + [e]) {
        ListStep(fs, o.fs, root, e, now);
      }
    }
  }

  /** On a grown tree an entry is a directory exactly when it was one before,
      and a folder path holds a file exactly when it did before. */
  lemma GrownSeesTheSame(fs: FileSystem, g: FileSystem, root: Path, e: string, now: string)
    requires GrownBelow(fs, g, root, now)
    ensures IsDir(g, root + [e]) <==> IsDir(fs, root + [e])
    ensures forall j :: 0 <= j < |REQUIRED_FOLDERS| ==>
              (IsFile(g, root + [e] + [REQUIRED_FOLDERS[j]]) <==> IsFile(fs, root + [e] + [REQUIRED_FOLDERS[j]]))
  {
    var w := root + [e];
    if w in g && w !in fs {
      assert false;
    }
    forall j | 0 <= j < |REQUIRED_FOLDERS|
      ensures IsFile(g, w + [REQUIRED_FOLDERS[j]]) <==> IsFile(fs, w + [REQUIRED_FOLDERS[j]])
    {
      var q := w + [REQUIRED_FOLDERS[j]];
      if q in g && q !in fs {
        assert AddedBelow(root, now, q, g[q]);
        assert q[|root| + 1] == REQUIRED_FOLDERS[j];
        TaskIsNoFolder(w);
        assert g[q] == Dir;
      }
    }
  }

  /** The listing below an existing directory fails exactly when some listed
      directory has a file where one of its folders goes. */
  lemma {:induction false} ListSucceeds(fs: FileSystem, cwd: Path, base: string, entries: seq<string>, now: string)
    requires WellFormed(fs) && Canonical(cwd) && IsDir(fs, Resolve(cwd, [base]))
    requires forall i :: 0 <= i < |entries| ==> IsName(entries[i])
    ensures ListEntries(fs, cwd, base, entries, now).result.Success? <==> ListingFits(fs, Resolve(cwd, [base]), entries)
    decreases |entries|
  {
    if entries != [] {
      var init := entries[..|entries| - 1];
      var e := entries[|entries| - 1];
      var root := Resolve(cwd, [base]);
      ListSucceeds(fs, cwd, base, init, now);
      ListKeeps(fs, cwd, base, init, now);
      var o := ListEntries(fs, cwd, base, init, now);
      EntryPath(cwd, base, e);
      GrownSeesTheSame(fs, o.fs, root, e, now);
      ListingFitsStep(fs, root, entries);
      if o.result.Success? && IsDir(o.fs, root + [e]) {
        ChildCanonical(root, e);
        DirHasChain(o.fs, root + [e]);
        StructureSucceeds(o.fs, root + [e], e, now);
      }
    }
  }

  /** `ListingFits` entry by entry. */
  lemma ListingFitsStep(fs: FileSystem, root: Path, entries: seq<string>)
    requires entries != []
    ensures var e := entries[|entries| - 1];
            ListingFits(fs, root, entries) <==>
              ListingFits(fs, root, entries[..|entries| - 1]) &&
              (IsDir(fs, root + [e]) ==> forall j :: 0 <= j < |REQUIRED_FOLDERS| ==> !IsFile(fs, root + [e] + [REQUIRED_FOLDERS[j]]))
  {
    var init := entries[..|entries| - 1];
    if ListingFits(fs, root, init) && (IsDir(fs, root + [entries[|entries| - 1]]) ==>
         forall j :: 0 <= j < |REQUIRED_FOLDERS| ==> !IsFile(fs, root + [entries[|entries| - 1]] + [REQUIRED_FOLDERS[j]]))
    {
      forall i, j | 0 <= i < |entries| && 0 <= j < |REQUIRED_FOLDERS| && IsDir(fs, root + [entries[i]])
        ensures !IsFile(fs, root + [entries[i]] + [REQUIRED_FOLDERS[j]])
      {
        if i < |init| { assert entries[i] == init[i]; }
      }
    }
    if ListingFits(fs, root, entries) {
      forall i, j | 0 <= i < |init| && 0 <= j < |REQUIRED_FOLDERS| && IsDir(fs, root + [init[i]])
        ensures !IsFile(fs, root + [init[i]] + [REQUIRED_FOLDERS[j]])
      {
        assert entries[i] == init[i];
      }
    }
  }

  /** The metadata a listed entry reports is the expected one. */
  lemma ListMetadata(fs: FileSystem, g: FileSystem, root: Path, e: string, now: string)
    requires DirChain(g, root + [e]) && GrownBelow(fs, g, root, now)
    requires Structure(g, root + [e], e, now).result.Success?
    ensures Metadata(Structure(g, root + [e], e, now).fs, root + [e]) == ExpectedMetadata(fs, root + [e], e, now)
  {
    var w := root + [e];
    var t := w + [TASK_FILE];
    var st := Structure(g, w, e, now);
    StructureTask(g, w, e, now);
    if t in fs {
      assert st.fs[t] == fs[t];
    } else if t in g {
      assert AddedBelow(root, now, t, g[t]);
      assert t[|root|] == e && t[|root| + 1] == TASK_FILE;
      assert st.fs[t] == File(Doc(NewMetadata(e, now)));
    }
  }

  /** A successful listing below an existing directory returns exactly the
      reference list: one record per directory entry, in listing order, with
      its name, its location and the expected metadata. */
  lemma {:induction false} ListResult(fs: FileSystem, cwd: Path, base: string, entries: seq<string>, now: string)
    requires WellFormed(fs) && Canonical(cwd) && IsDir(fs, Resolve(cwd, [base]))
    requires forall i :: 0 <= i < |entries| ==> IsName(entries[i])
    ensures var o := ListEntries(fs, cwd, base, entries, now);
            o.result.Success? ==> o.result.value == Listed(fs, Resolve(cwd, [base]), entries, now)
    decreases |entries|
  {
    if entries != [] {
      var init := entries[..|entries| - 1];
      var e := entries[|entries| - 1];
      var root := Resolve(cwd, [base]);
      ListResult(fs, cwd, base, init, now);
      ListKeeps(fs, cwd, base, init, now);
      var o := ListEntries(fs, cwd, base, init, now);
      EntryPath(cwd, base, e);
      GrownSeesTheSame(fs, o.fs, root, e, now);
      if o.result.Success? && IsDir(o.fs, root + [e]) {
        ChildCanonical(root, e);
        DirHasChain(o.fs, root + [e]);
        if Structure(o.fs, root + [e], e, now).result.Success? {
          ListMetadata(fs, o.fs, root, e, now);
        }
      }
    }
  }

  /** `listWorkspaces`: nothing to list without a string base directory or
      when it does not exist; a base that is a file is an error; below an
      existing base directory it fails exactly when some listed directory has a
      file where a folder goes, and otherwise returns the reference list. */
  lemma ListWorkspacesFacts(fs: FileSystem, cwd: Path, baseDirectory: Json, listing: seq<string>, now: string)
    requires WellFormed(fs) && Canonical(cwd)
    requires forall i :: 0 <= i < |listing| ==> IsName(listing[i])
    ensures var o := ListWorkspaces(fs, cwd, baseDirectory, listing, now);
            && (!(Truthy(baseDirectory) && baseDirectory.JStr?) ==> o == Outcome(fs, Success([])))
            && (Truthy(baseDirectory) && baseDirectory.JStr? ==>
                  var root := Resolve(cwd, [baseDirectory.s]);
                  && (!Exists(fs, root) ==> o == Outcome(fs, Success([])))
                  && (Exists(fs, root) && !IsDir(fs, root) ==> o == Outcome(fs, Failure(Fs(NotADirectory(root)))))
                  && (IsDir(fs, root) ==>
                        && (o.result.Success? <==> ListingFits(fs, root, listing))
                        && (o.result.Success? ==> o.result.value == Listed(fs, root, listing, now))
                        && WellFormed(o.fs)))
  {
    if Truthy(baseDirectory) && baseDirectory.JStr? {
      var b := baseDirectory.s;
      if IsDir(fs, Resolve(cwd, [b])) {
        ListSucceeds(fs, cwd, b, listing, now);
        ListResult(fs, cwd, b, listing, now);
        ListKeeps(fs, cwd, b, listing, now);
      }
    }
  }

  // ---- what createWorkspace does ------------------------------------------

  /** The checks of `createWorkspace`, in their order. */
  lemma CreateRefusals(fs: FileSystem, cwd: Path, c: Config, name: string, now: string)
    requires Canonical(cwd)
    ensures name == "" ==> Create(fs, cwd, c, name, now) == Outcome(fs, Failure(NameRequired))
    ensures name != "" && !Truthy(BaseDirectoryOf(c)) ==> Create(fs, cwd, c, name, now) == Outcome(fs, Failure(BaseNotSet))
    ensures name != "" && Truthy(BaseDirectoryOf(c)) && !BaseDirectoryOf(c).JStr? ==>
              Create(fs, cwd, c, name, now) == Outcome(fs, Failure(BaseNotAString))
    ensures name != "" && Truthy(BaseDirectoryOf(c)) && BaseDirectoryOf(c).JStr? &&
            Exists(fs, Resolve(cwd, [Joined(BaseDirectoryOf(c).s, name)])) ==>
              Create(fs, cwd, c, name, now) == Outcome(fs, Failure(AlreadyExists))
  {
  }

  /** `mkdirp` of a fresh workspace path: a well-formed tree with the whole
      chain to it and nothing inside it yet. */
  lemma FreshWorkspace(fs: FileSystem, w: Path)
    requires WellFormed(fs) && Canonical(w) && !Exists(fs, w) && NoFileOnWay(fs, w)
    ensures var fs1 := MkdirP(fs, w).value;
            && WellFormed(fs1) && DirChain(fs1, w)
            && (forall q :: q in fs1 && q !in fs ==> Within(w, q))
            && (forall x :: w + [x] !in fs1)
  {
    MkdirPWellFormed(fs, w);
    NothingBelow(fs, w);
    var fs1 := MkdirP(fs, w).value;
    forall x ensures w + [x] !in fs1 {
      var q := w + [x];
      assert q[..|w|] == w;
      assert q !in fs;
    }
  }

  /** Laying out a fresh workspace fails only when a file stands on the way
      to the new directory, and then changes nothing. */
  lemma LaySucceeds(fs: FileSystem, w: Path, name: string, n: string, now: string)
    requires WellFormed(fs) && Canonical(w) && !Exists(fs, w)
    ensures var o := Lay(fs, w, name, n, now);
            && (o.result.Success? <==> NoFileOnWay(fs, w))
            && (o.result.Success? ==> o.result.value == WorkspaceRef(name, w))
            && (o.result.Failure? ==> o.fs == fs && o.result.error.Fs?)
  {
    if NoFileOnWay(fs, w) {
      FreshWorkspace(fs, w);
      StructureSucceeds(MkdirP(fs, w).value, w, n, now);
    }
  }

  /** What laying out a fresh workspace builds: the directory with its three
      folders and a fresh `task.json`; every stored entry kept; new entries
      only on the way to the workspace or in its skeleton; the tree well formed. */
  lemma LayBuilds(fs: FileSystem, w: Path, name: string, n: string, now: string)
    requires WellFormed(fs) && Canonical(w) && !Exists(fs, w)
    requires Lay(fs, w, name, n, now).result.Success?
    ensures var o := Lay(fs, w, name, n, now);
            && IsDir(o.fs, w)
            && (forall i :: 0 <= i < |REQUIRED_FOLDERS| ==> IsDir(o.fs, w + [REQUIRED_FOLDERS[i]]))
            && w + [TASK_FILE] in o.fs
            && o.fs[w + [TASK_FILE]] == File(Doc(NewMetadata(n, now)))
            && (forall q :: q in fs ==> q in o.fs && o.fs[q] == fs[q])
            && (forall q :: q in o.fs && q !in fs ==> Within(w, q) || q in Skeleton(w))
            && WellFormed(o.fs)
  {
    LaySucceeds(fs, w, name, n, now);
    FreshWorkspace(fs, w);
    var fs1 := MkdirP(fs, w).value;
    ChainTop(fs1, w);
    StructureKeeps(fs1, w, n, now);
    StructureFolders(fs1, w, n, now);
    StructureTask(fs1, w, n, now);
    StructureWellFormed(fs1, w, n, now);
  }

  /** Past its checks, `createWorkspace` is the layout of the new directory
      named by the base name of the joined path. */
  lemma CreateLays(fs: FileSystem, cwd: Path, c: Config, name: string, now: string)
    requires Canonical(cwd)
    requires name != "" && Truthy(BaseDirectoryOf(c)) && BaseDirectoryOf(c).JStr?
    requires !Exists(fs, Resolve(cwd, [Joined(BaseDirectoryOf(c).s, name)]))
    ensures var b := BaseDirectoryOf(c).s;
            Create(fs, cwd, c, name, now) ==
              Lay(fs, Resolve(cwd, [Joined(b, name)]), name, BaseName(Joined(b, name)), now)
  {
  }

  /** For a plain name the new workspace is that entry of the base directory,
      and its metadata carries the name. */
  lemma CreateSimpleName(cwd: Path, b: string, name: string)
    requires Canonical(cwd) && IsName(name)
    ensures Resolve(cwd, [Joined(b, name)]) == Resolve(cwd, [b]) + [name]
    ensures BaseName(Joined(b, name)) == name
  {
    EntryPath(cwd, b, name);
  }

  // ---- what setting metadata properties does ------------------------------

  /** `Touch` changes at most the entry at `t`, and never adds or drops one. */
  lemma TouchOnly(fs: FileSystem, t: Path, props: map<string, Json>)
    ensures var o := Touch(fs, t, props);
            && o.fs.Keys == fs.Keys
            && (forall q :: q in fs && q != t ==> o.fs[q] == fs[q])
  {
  }

  /** An object document takes the properties, each new value winning. */
  lemma TouchObject(fs: FileSystem, t: Path, props: map<string, Json>, fields: map<string, Json>)
    requires t != [] && t in fs && fs[t] == File(Doc(JObj(fields))) && IsDir(fs, Parent(t))
    ensures Touch(fs, t, props) == Outcome(fs[t := File(Doc(JObj(fields + props)))], Success(()))
  {
  }

  /** The other cases of `Touch`: a missing file is no error and changes
      nothing; a directory or a text file cannot be read as JSON, and a `null`
      document cannot take a property, and neither changes anything; any other
      non-object document is written back unchanged. */
  lemma TouchRefusals(fs: FileSystem, t: Path, props: map<string, Json>)
    requires t != []
    ensures t !in fs ==> Touch(fs, t, props) == Outcome(fs, Success(()))
    ensures t in fs && (fs[t].Dir? || fs[t].data.Text?) ==> Touch(fs, t, props) == Outcome(fs, Failure(Fs(Unreadable(t))))
    ensures t in fs && fs[t] == File(Doc(JNull)) ==> Touch(fs, t, props) == Outcome(fs, Failure(Fs(NotAnObject(t))))
    ensures (t in fs && fs[t].File? && fs[t].data.Doc? && !fs[t].data.doc.JObj? && !fs[t].data.doc.JNull? &&
             IsDir(fs, Parent(t))) ==> Touch(fs, t, props) == Outcome(fs, Success(()))
  {
    if t in fs && fs[t].File? && fs[t].data.Doc? && !fs[t].data.doc.JObj? && !fs[t].data.doc.JNull? && IsDir(fs, Parent(t)) {
      assert fs[t := fs[t]] == fs;
    }
  }

  /** `Touch` keeps the tree well formed. */
  lemma TouchWellFormed(fs: FileSystem, t: Path, props: map<string, Json>)
    requires WellFormed(fs)
    ensures WellFormed(Touch(fs, t, props).fs)
  {
    var o := Touch(fs, t, props);
    TouchOnly(fs, t, props);
    if o.fs != fs {
      assert t in fs && fs[t].File? && o.fs[t].File?;
      forall q | q in o.fs ensures q != [] && Canonical(q) && IsDir(o.fs, Parent(q)) {
        assert IsDir(fs, Parent(q));
        assert Parent(q) != t;
      }
    }
  }

  // ---- what renameWorkspace does ------------------------------------------

  /** The checks of `renameWorkspace`, in their order. */
  lemma RenameRefusals(fs: FileSystem, cwd: Path, c: Config, oldName: string, newName: string, now: string)
    requires Canonical(cwd)
    ensures !Truthy(BaseDirectoryOf(c)) ==> Rename(fs, cwd, c, oldName, newName, now) == Outcome(fs, Failure(BaseNotSet))
    ensures Truthy(BaseDirectoryOf(c)) && !BaseDirectoryOf(c).JStr? ==>
              Rename(fs, cwd, c, oldName, newName, now) == Outcome(fs, Failure(BaseNotAString))
    ensures BaseOf(BaseDirectoryOf(c)).At? && !Exists(fs, Resolve(cwd, [Joined(BaseDirectoryOf(c).s, oldName)])) ==>
              Rename(fs, cwd, c, oldName, newName, now) == Outcome(fs, Failure(DoesNotExist))
    ensures BaseOf(BaseDirectoryOf(c)).At? && Exists(fs, Resolve(cwd, [Joined(BaseDirectoryOf(c).s, oldName)])) &&
            Exists(fs, Resolve(cwd, [Joined(BaseDirectoryOf(c).s, newName)])) ==>
              Rename(fs, cwd, c, oldName, newName, now) == Outcome(fs, Failure(NameTaken))
  {
  }

  /** Past its checks, `renameWorkspace` relocates the old workspace. */
  lemma RenameRelocatesAfterChecks(fs: FileSystem, cwd: Path, c: Config, oldName: string, newName: string, now: string)
    requires Canonical(cwd) && BaseOf(BaseDirectoryOf(c)).At?
    requires var b := BaseDirectoryOf(c).s;
             Exists(fs, Resolve(cwd, [Joined(b, oldName)])) && !Exists(fs, Resolve(cwd, [Joined(b, newName)]))
    ensures var b := BaseDirectoryOf(c).s;
            var to := Resolve(cwd, [Joined(b, newName)]);
            to != [] &&
            Rename(fs, cwd, c, oldName, newName, now) ==
              Relocate(fs, Resolve(cwd, [Joined(b, oldName)]), to, oldName, newName, now)
  {
  }

  /** A relocation that fails changes nothing; one that succeeds returns both
      names. */
  lemma RelocateOutcome(fs: FileSystem, from: Path, to: Path, oldName: string, newName: string, now: string)
    requires to != []
    ensures var o := Relocate(fs, from, to, oldName, newName, now);
            && (Move(fs, from, to).Failure? ==> o == Outcome(fs, Failure(Fs(Move(fs, from, to).error))))
            && (o.result.Success? ==> o.result.value == (oldName, newName))
  {
  }

  /** After a successful move the relocation is the property update of the
      moved `task.json`. */
  lemma RelocateTouches(fs: FileSystem, from: Path, to: Path, oldName: string, newName: string, now: string)
    requires to != [] && Move(fs, from, to).Success?
    ensures var o := Relocate(fs, from, to, oldName, newName, now);
            var t := Touch(Move(fs, from, to).value, to + [TASK_FILE],
                           map["name" := JStr(newName), "updatedAt" := JStr(now)]);
            o.fs == t.fs && (o.result.Success? <==> t.result.Success?)
  {
  }

  /** After a successful relocation every entry of the old workspace is at
      the same place below the new path (its `task.json` aside, which only
      the properties change), nothing is left below the old path, everything
      outside it is kept, and the tree stays well formed. */
  lemma RelocateMoves(fs: FileSystem, from: Path, to: Path, oldName: string, newName: string, now: string)
    requires WellFormed(fs) && Canonical(to) && to != [] && from in fs && !Exists(fs, to)
    requires Relocate(fs, from, to, oldName, newName, now).result.Success?
    ensures var o := Relocate(fs, from, to, oldName, newName, now);
            && (forall rel :: from + rel in fs && rel != [TASK_FILE] ==> to + rel in o.fs && o.fs[to + rel] == fs[from + rel])
            && (forall q :: q in o.fs ==> !Within(q, from))
            && (forall q :: q in fs && !Within(q, from) ==> q in o.fs && o.fs[q] == fs[q])
            && WellFormed(o.fs)
  {
    var props := map["name" := JStr(newName), "updatedAt" := JStr(now)];
    var fs1 := Move(fs, from, to).value;
    MoveCarries(fs, from, to);
    MoveKeepsOthers(fs, from, to);
    MoveLeavesNothing(fs, from, to);
    MoveWellFormed(fs, from, to);
    TouchOnly(fs1, to + [TASK_FILE], props);
    TouchWellFormed(fs1, to + [TASK_FILE], props);
    NothingBelow(fs, to);
    forall q | q in fs && !Within(q, from) ensures q != to + [TASK_FILE] {
      assert !Within(q, to);
    }
  }

  /** A move takes the workspace directory and its `task.json` along. */
  lemma MovedTaskFile(fs: FileSystem, from: Path, to: Path)
    requires WellFormed(fs) && to != [] && from + [TASK_FILE] in fs && Move(fs, from, to).Success?
    ensures var fs1 := Move(fs, from, to).value;
            && IsDir(fs1, to)
            && to + [TASK_FILE] in fs1 && fs1[to + [TASK_FILE]] == fs[from + [TASK_FILE]]
  {
    assert Parent(from + [TASK_FILE]) == from;
    var none: Path := [];
    assert from + none == from && to + none == to;
    MoveCarriesOne(fs, from, to, none);
    MoveCarriesOne(fs, from, to, [TASK_FILE]);
  }

  /** The moved `task.json`, when it holds an object, gets the new name and
      the time of the rename; every other property is kept. */
  lemma RelocateStamps(fs: FileSystem, from: Path, to: Path, oldName: string, newName: string, now: string,
                       fields: map<string, Json>)
    requires WellFormed(fs) && to != []
    requires from + [TASK_FILE] in fs && fs[from + [TASK_FILE]] == File(Doc(JObj(fields)))
    requires Move(fs, from, to).Success?
    ensures var o := Relocate(fs, from, to, oldName, newName, now);
            && o.result.Success?
            && to + [TASK_FILE] in o.fs
            && o.fs[to + [TASK_FILE]] == File(Doc(JObj(fields + map["name" := JStr(newName), "updatedAt" := JStr(now)])))
  {
    var props := map["name" := JStr(newName), "updatedAt" := JStr(now)];
    var t := to + [TASK_FILE];
    MovedTaskFile(fs, from, to);
    var fs1 := Move(fs, from, to).value;
    assert Parent(t) == to;
    TouchObject(fs1, t, props, fields);
    RelocateTouches(fs, from, to, oldName, newName, now);
  }

  // ---- what deleteWorkspace does ------------------------------------------

  /** The checks of `deleteWorkspace`, in their order. */
  lemma DeleteRefusals(fs: FileSystem, cwd: Path, c: Config, name: string)
    requires Canonical(cwd)
    ensures !Truthy(BaseDirectoryOf(c)) ==> Delete(fs, cwd, c, name) == Outcome(fs, Failure(BaseNotSet))
    ensures Truthy(BaseDirectoryOf(c)) && !BaseDirectoryOf(c).JStr? ==>
              Delete(fs, cwd, c, name) == Outcome(fs, Failure(BaseNotAString))
    ensures BaseOf(BaseDirectoryOf(c)).At? && !Exists(fs, Resolve(cwd, [Joined(BaseDirectoryOf(c).s, name)])) ==>
              Delete(fs, cwd, c, name) == Outcome(fs, Failure(DoesNotExist))
  {
  }

  /** Past its checks `deleteWorkspace` succeeds with the name and leaves the
      tree without the workspace directory and everything below it. */
  lemma DeleteRemoves(fs: FileSystem, cwd: Path, c: Config, name: string)
    requires WellFormed(fs) && Canonical(cwd) && BaseOf(BaseDirectoryOf(c)).At?
    requires Exists(fs, Resolve(cwd, [Joined(BaseDirectoryOf(c).s, name)]))
    ensures var w := Resolve(cwd, [Joined(BaseDirectoryOf(c).s, name)]);
            Delete(fs, cwd, c, name) == Outcome(Remove(fs, w), Success(name))
    ensures WellFormed(Delete(fs, cwd, c, name).fs)
  {
    RemoveWellFormed(fs, Resolve(cwd, [Joined(BaseDirectoryOf(c).s, name)]));
  }

  // ---- what applyGeneratedFiles does --------------------------------------

  /** The files the guard lets through, in their order. */
  function AcceptedFiles(cwd: Path, ws: string, files: seq<GeneratedFile>): (r: seq<GeneratedFile>)
    requires Canonical(cwd)
    ensures |r| <= |files|
    ensures forall i :: 0 <= i < |r| ==> Accepted(cwd, ws, r[i])
    decreases |files|
  {
    if files == [] then []
    else
      var init := AcceptedFiles(cwd, ws, files[..|files| - 1]);
      var f := files[|files| - 1];
      if Accepted(cwd, ws, f) then init + [f] else init
  }

  /** Rejected files are skipped without a trace: writing the files has the
      effect of writing only the accepted ones. */
  lemma {:induction false} WriteFilesSkipsRejected(fs: FileSystem, cwd: Path, ws: string, files: seq<GeneratedFile>)
    requires Canonical(cwd)
    ensures WriteFiles(fs, cwd, ws, files) == WriteFiles(fs, cwd, ws, AcceptedFiles(cwd, ws, files))
    decreases |files|
  {
    if files != [] {
      var init := files[..|files| - 1];
      var f := files[|files| - 1];
      WriteFilesSkipsRejected(fs, cwd, ws, init);
      var a := AcceptedFiles(cwd, ws, init);
      if Accepted(cwd, ws, f) {
        assert (a + [f])[..|a + [f]| - 1] == a;
      }
    }
  }

  /** When the guard rejects every file nothing is written, and the update
      of `updatedAt` is all that `applyGeneratedFiles` does. */
  lemma ApplyAllRejected(fs: FileSystem, cwd: Path, ws: string, files: seq<GeneratedFile>, now: string)
    requires Canonical(cwd)
    requires forall i :: 0 <= i < |files| ==> !Accepted(cwd, ws, files[i])
    ensures Apply(fs, cwd, ws, files, now) == Touch(fs, Resolve(cwd, [ws]) + [TASK_FILE], map["updatedAt" := JStr(now)])
  {
    WriteFilesSkipsRejected(fs, cwd, ws, files);
    if AcceptedFiles(cwd, ws, files) != [] {
      var r := AcceptedFiles(cwd, ws, files);
      AcceptedAreFromFiles(cwd, ws, files, r[0]);
    }
  }

  /** Every accepted file is one of the input files. */
  lemma {:induction false} AcceptedAreFromFiles(cwd: Path, ws: string, files: seq<GeneratedFile>, f: GeneratedFile)
    requires Canonical(cwd)
    requires f in AcceptedFiles(cwd, ws, files)
    ensures f in files
    decreases |files|
  {
    var init := files[..|files| - 1];
    if f in AcceptedFiles(cwd, ws, init) {
      AcceptedAreFromFiles(cwd, ws, init, f);
      assert init[..] <= files;
    }
  }

  /** A run of writes that ends in success succeeded at every earlier step. */
  lemma FailureSticks(fs: FileSystem, cwd: Path, ws: string, files: seq<GeneratedFile>)
    requires Canonical(cwd) && files != []
    requires WriteFiles(fs, cwd, ws, files).result.Success?
    ensures WriteFiles(fs, cwd, ws, files[..|files| - 1]).result.Success?
  {
  }

  /** The last accepted file aimed at a target decides its contents. */
  lemma {:induction false} LastWriteWins(fs: FileSystem, cwd: Path, ws: string, files: seq<GeneratedFile>, i: nat)
    requires Canonical(cwd) && i < |files| && Accepted(cwd, ws, files[i])
    requires WriteFiles(fs, cwd, ws, files).result.Success?
    requires forall j :: i < j < |files| && Accepted(cwd, ws, files[j]) ==>
               Target(cwd, ws, files[j]) != Target(cwd, ws, files[i])
    ensures var o := WriteFiles(fs, cwd, ws, files);
            Target(cwd, ws, files[i]) in o.fs && o.fs[Target(cwd, ws, files[i])] == File(Text(files[i].content))
    decreases |files|
  {
    var init := files[..|files| - 1];
    if i < |files| - 1 {
      var t := Target(cwd, ws, files[i]);
      assert files[i] == init[i];
      forall j | i < j < |init| && Accepted(cwd, ws, init[j]) ensures Target(cwd, ws, init[j]) != t {
        assert init[j] == files[j];
      }
      LastWriteSticks(fs, cwd, ws, files);
      LastWriteWins(fs, cwd, ws, init, i);
      LastWriteKeeps(fs, cwd, ws, files, t);
    } else {
      LastWriteLands(fs, cwd, ws, files);
    }
  }

  /** A run that succeeds succeeded before its last file. */
  lemma LastWriteSticks(fs: FileSystem, cwd: Path, ws: string, files: seq<GeneratedFile>)
    requires Canonical(cwd) && files != [] && WriteFiles(fs, cwd, ws, files).result.Success?
    ensures WriteFiles(fs, cwd, ws, files[..|files| - 1]).result.Success?
  {
  }

  /** The last file of a run that succeeds, when accepted, is at its target. */
  lemma LastWriteLands(fs: FileSystem, cwd: Path, ws: string, files: seq<GeneratedFile>)
    requires Canonical(cwd) && files != [] && Accepted(cwd, ws, files[|files| - 1])
    requires WriteFiles(fs, cwd, ws, files).result.Success?
    ensures var f := files[|files| - 1];
            var r := WriteFiles(fs, cwd, ws, files).fs;
            Target(cwd, ws, f) in r && r[Target(cwd, ws, f)] == File(Text(f.content))
  {
    var o := WriteFiles(fs, cwd, ws, files[..|files| - 1]);
    WriteOneLands(o, cwd, ws, files[|files| - 1]);
  }

  /** The last file of a run that succeeds keeps every entry other than its target. */
  lemma LastWriteKeeps(fs: FileSystem, cwd: Path, ws: string, files: seq<GeneratedFile>, q: Path)
    requires Canonical(cwd) && files != [] && WriteFiles(fs, cwd, ws, files).result.Success?
    requires q in WriteFiles(fs, cwd, ws, files[..|files| - 1]).fs
    requires Accepted(cwd, ws, files[|files| - 1]) ==> Target(cwd, ws, files[|files| - 1]) != q
    ensures var r := WriteFiles(fs, cwd, ws, files).fs;
            q in r && r[q] == WriteFiles(fs, cwd, ws, files[..|files| - 1]).fs[q]
  {
    var o := WriteFiles(fs, cwd, ws, files[..|files| - 1]);
    WriteOneKeeps(o, cwd, ws, files[|files| - 1], q);
  }

  /** A write that succeeds leaves its accepted file at its target. */
  lemma WriteOneLands(o: Outcome<()>, cwd: Path, ws: string, f: GeneratedFile)
    requires Canonical(cwd) && Accepted(cwd, ws, f) && WriteOne(o, cwd, ws, f).result.Success?
    ensures var r := WriteOne(o, cwd, ws, f).fs;
            Target(cwd, ws, f) in r && r[Target(cwd, ws, f)] == File(Text(f.content))
  {
  }

  /** A write that succeeds keeps every entry that is not its target. */
  lemma WriteOneKeeps(o: Outcome<()>, cwd: Path, ws: string, f: GeneratedFile, q: Path)
    requires Canonical(cwd) && q in o.fs && WriteOne(o, cwd, ws, f).result.Success?
    requires Accepted(cwd, ws, f) ==> Target(cwd, ws, f) != q
    ensures var r := WriteOne(o, cwd, ws, f).fs;
            q in r && r[q] == o.fs[q]
  {
  }

  /** Writing the files changes no entry that is not the target of an
      accepted file. */
  lemma {:induction false} WriteFilesKeeps(fs: FileSystem, cwd: Path, ws: string, files: seq<GeneratedFile>, q: Path)
    requires Canonical(cwd) && q in fs
    requires forall i :: 0 <= i < |files| && Accepted(cwd, ws, files[i]) ==> Target(cwd, ws, files[i]) != q
    ensures var o := WriteFiles(fs, cwd, ws, files);
            q in o.fs && o.fs[q] == fs[q]
    decreases |files|
  {
    if files != [] {
      var init := files[..|files| - 1];
      forall i | 0 <= i < |init| && Accepted(cwd, ws, init[i]) ensures Target(cwd, ws, init[i]) != q {
        assert init[i] == files[i];
      }
      WriteFilesKeeps(fs, cwd, ws, init, q);
    }
  }

  /** The entry `q` holding `node` is the target `t` of a write, or a
      directory made on the way to it. */
  predicate MadeFor(t: Path, q: Path, node: Node) {
    t != [] && (q == t || (Within(Parent(t), q) && node == Dir))
  }

  /** One more file either leaves the tree as it was or writes that file. */
  lemma WriteStep(fs: FileSystem, cwd: Path, ws: string, files: seq<GeneratedFile>)
    requires Canonical(cwd) && files != []
    ensures var o := WriteFiles(fs, cwd, ws, files[..|files| - 1]);
            var f := files[|files| - 1];
            var r := WriteFiles(fs, cwd, ws, files).fs;
            r == o.fs ||
            (Accepted(cwd, ws, f) && OutputFile(o.fs, Target(cwd, ws, f), f.content).Success? &&
             r == OutputFile(o.fs, Target(cwd, ws, f), f.content).value)
  {
  }

  /** What a single write adds is its target or a directory on the way to it. */
  lemma OutputMadeFor(fs: FileSystem, t: Path, text: string, q: Path)
    requires OutputFile(fs, t, text).Success? && q in OutputFile(fs, t, text).value && (q == t || q !in fs)
    ensures MadeFor(t, q, OutputFile(fs, t, text).value[q])
  {
  }

  /** Every entry that writing the files adds is the target of an accepted
      file or a directory made on the way to one. */
  lemma {:induction false} WriteFilesAddsOnly(fs: FileSystem, cwd: Path, ws: string, files: seq<GeneratedFile>, q: Path)
    requires Canonical(cwd)
    requires q in WriteFiles(fs, cwd, ws, files).fs && q !in fs
    ensures exists i :: 0 <= i < |files| && Accepted(cwd, ws, files[i]) &&
              MadeFor(Target(cwd, ws, files[i]), q, WriteFiles(fs, cwd, ws, files).fs[q])
    decreases |files|
  {
    var init := files[..|files| - 1];
    if KeptFromBefore(fs, cwd, ws, files, q) {
      KeptHoldsTheSame(fs, cwd, ws, files, q);
      WriteFilesAddsOnly(fs, cwd, ws, init, q);
      var i :| 0 <= i < |init| && Accepted(cwd, ws, init[i]) &&
               MadeFor(Target(cwd, ws, init[i]), q, WriteFiles(fs, cwd, ws, init).fs[q]);
      assert files[i] == init[i];
    } else {
      LastWriteAdds(fs, cwd, ws, files, q);
    }
  }

  /** `q` was there before the last file and the last write left it alone. */
  predicate KeptFromBefore(fs: FileSystem, cwd: Path, ws: string, files: seq<GeneratedFile>, q: Path)
    requires Canonical(cwd) && files != []
  {
    var o := WriteFiles(fs, cwd, ws, files[..|files| - 1]);
    var r := WriteFiles(fs, cwd, ws, files).fs;
    q in o.fs && (r == o.fs || q != Target(cwd, ws, files[|files| - 1]))
  }

  /** An entry the last write did not leave alone is what it made. */
  lemma LastWriteAdds(fs: FileSystem, cwd: Path, ws: string, files: seq<GeneratedFile>, q: Path)
    requires Canonical(cwd) && files != []
    requires q in WriteFiles(fs, cwd, ws, files).fs && q !in fs
    requires !KeptFromBefore(fs, cwd, ws, files, q)
    ensures var f := files[|files| - 1];
            Accepted(cwd, ws, f) && MadeFor(Target(cwd, ws, f), q, WriteFiles(fs, cwd, ws, files).fs[q])
  {
    var o := WriteFiles(fs, cwd, ws, files[..|files| - 1]);
    var f := files[|files| - 1];
    WriteStep(fs, cwd, ws, files);
    OutputMadeFor(o.fs, Target(cwd, ws, f), f.content, q);
  }

  /** An entry the last write left alone holds what it held before. */
  lemma KeptHoldsTheSame(fs: FileSystem, cwd: Path, ws: string, files: seq<GeneratedFile>, q: Path)
    requires Canonical(cwd) && files != []
    requires KeptFromBefore(fs, cwd, ws, files, q)
    ensures var r := WriteFiles(fs, cwd, ws, files).fs;
            q in r && r[q] == WriteFiles(fs, cwd, ws, files[..|files| - 1]).fs[q]
  {
    WriteStep(fs, cwd, ws, files);
  }

  /** Writing the files keeps the tree well formed. */
  lemma {:induction false} WriteFilesWellFormed(fs: FileSystem, cwd: Path, ws: string, files: seq<GeneratedFile>)
    requires Canonical(cwd) && WellFormed(fs)
    ensures WellFormed(WriteFiles(fs, cwd, ws, files).fs)
    decreases |files|
  {
    if files != [] {
      var init := files[..|files| - 1];
      var f := files[|files| - 1];
      WriteFilesWellFormed(fs, cwd, ws, init);
      var o := WriteFiles(fs, cwd, ws, init);
      if o.result.Success? && Accepted(cwd, ws, f) && OutputFile(o.fs, Target(cwd, ws, f), f.content).Success? {
        OutputFileWellFormed(o.fs, Target(cwd, ws, f), f.content);
      }
    }
  }

  /** After the files are written, `applyGeneratedFiles` stamps an object
      `task.json` of the workspace with the time and keeps its other
      properties. */
  lemma ApplyStamps(fs: FileSystem, cwd: Path, ws: string, files: seq<GeneratedFile>, now: string,
                    fields: map<string, Json>)
    requires Canonical(cwd)
    requires var o := WriteFiles(fs, cwd, ws, files);
             var t := Resolve(cwd, [ws]) + [TASK_FILE];
             o.result.Success? && t in o.fs && o.fs[t] == File(Doc(JObj(fields))) && IsDir(o.fs, Resolve(cwd, [ws]))
    ensures var o := WriteFiles(fs, cwd, ws, files);
            var t := Resolve(cwd, [ws]) + [TASK_FILE];
            Apply(fs, cwd, ws, files, now) == Outcome(o.fs[t := File(Doc(JObj(fields["updatedAt" := JStr(now)])))], Success(()))
  {
    var o := WriteFiles(fs, cwd, ws, files);
    var t := Resolve(cwd, [ws]) + [TASK_FILE];
    assert Parent(t) == Resolve(cwd, [ws]);
    TouchObject(o.fs, t, map["updatedAt" := JStr(now)], fields);
    SpreadOne(fields, "updatedAt", JStr(now));
  }

  /** Spreading a single property over an object sets that property. */
  lemma SpreadOne(fields: map<string, Json>, k: string, v: Json)
    ensures fields + map[k := v] == fields[k := v]
  {
  }

  // ---- what the guard lets through ----------------------------------------

  /** Everything inside the workspace is accepted. */
  lemma InsideIsAccepted(cwd: Path, ws: string, f: GeneratedFile)
    requires Canonical(cwd) && Within(Target(cwd, ws, f), Resolve(cwd, [ws]))
    ensures Accepted(cwd, ws, f)
  {
    GuardAdmitsWithin(Target(cwd, ws, f), Resolve(cwd, [ws]));
  }

  /** The guard compares strings, not path segments: an accepted target lies
      inside the directory that holds the workspace, in an entry whose name
      starts with the workspace's name, so a sibling such as `ws2` next to
      `ws` gets through, but nothing outside the holding directory does. */
  lemma AcceptedStaysNextTo(cwd: Path, ws: string, f: GeneratedFile)
    requires Canonical(cwd)
    requires Accepted(cwd, ws, f) && Resolve(cwd, [ws]) != []
    ensures var root := Resolve(cwd, [ws]);
            var t := Target(cwd, ws, f);
            && Within(t, Parent(root))
            && |t| >= |root|
            && StartsWith(t[|root| - 1], root[|root| - 1])
  {
    var root := Resolve(cwd, [ws]);
    var t := Target(cwd, ws, f);
    GuardAdmits(t, root);
  }

  /** The sibling hole, for one concrete layout: with the workspace at
      `/b/ws`, a file `../ws2/x` is written to `/b/ws2/x`. */
  lemma SiblingIsAccepted()
    ensures var root: Path := ["b", "ws"];
            var t: Path := ["b", "ws2", "x"];
            PrefixGuard(t, root) && !Within(t, root)
  {
    var root: Path := ["b", "ws"];
    var t: Path := ["b", "ws2", "x"];
    GuardAdmits(t, root);
    assert StartsWith(t[1], root[1]);
  }

  // ---- a throw ends the loop ----------------------------------------------

  /** One more folder of the loop. */
  lemma MakeFoldersStep(fs0: FileSystem, w: Path, folders: seq<string>, i: nat, fs: FileSystem)
    requires i < |folders| && MakeFolders(fs0, w, folders[..i]) == Outcome(fs, Success(()))
    ensures var m := MkdirP(fs, w + [folders[i]]);
            MakeFolders(fs0, w, folders[..i + 1]) ==
              if m.Failure? then Outcome(fs, Failure(Fs(m.error))) else Outcome(m.value, Success(()))
  {
    assert folders[..i + 1][..i] == folders[..i];
  }

  /** One more file of the loop of `applyGeneratedFiles`. */
  lemma WriteFilesStep(fs0: FileSystem, cwd: Path, ws: string, files: seq<GeneratedFile>, i: nat, fs: FileSystem)
    requires Canonical(cwd)
    requires i < |files| && WriteFiles(fs0, cwd, ws, files[..i]) == Outcome(fs, Success(()))
    ensures WriteFiles(fs0, cwd, ws, files[..i + 1]) == WriteOne(Outcome(fs, Success(())), cwd, ws, files[i])
  {
    assert files[..i + 1][..i] == files[..i];
  }

  /** One more entry of the loop of `listWorkspaces`. */
  lemma ListEntriesStep(fs0: FileSystem, cwd: Path, base: string, entries: seq<string>, i: nat, now: string,
                        fs: FileSystem, found: seq<WorkspaceInfo>)
    requires Canonical(cwd)
    requires i < |entries| && ListEntries(fs0, cwd, base, entries[..i], now) == Outcome(fs, Success(found))
    ensures var w := Resolve(cwd, [Joined(base, entries[i])]);
            var st := Structure(fs, w, BaseName(Joined(base, entries[i])), now);
            ListEntries(fs0, cwd, base, entries[..i + 1], now) ==
              if !IsDir(fs, w) then Outcome(fs, Success(found))
              else if st.result.Failure? then Outcome(st.fs, Failure(st.result.error))
              else Outcome(st.fs, Success(found + [WorkspaceInfo(entries[i], w, Metadata(st.fs, w))]))
  {
    assert entries[..i + 1][..i] == entries[..i];
  }

  /** Once a `mkdirp` of the folder loop throws, the later folders are not tried. */
  lemma {:induction false} MakeFoldersStops(fs: FileSystem, w: Path, folders: seq<string>, i: nat)
    requires i <= |folders| && MakeFolders(fs, w, folders[..i]).result.Failure?
    ensures MakeFolders(fs, w, folders) == MakeFolders(fs, w, folders[..i])
    decreases |folders|
  {
    if i < |folders| {
      var init := folders[..|folders| - 1];
      assert init[..i] == folders[..i];
      MakeFoldersStops(fs, w, init, i);
    } else {
      assert folders[..i] == folders;
    }
  }

  /** Once preparing a listed workspace throws, the later entries are not visited. */
  lemma {:induction false} ListEntriesStops(fs: FileSystem, cwd: Path, base: string, entries: seq<string>, i: nat, now: string)
    requires Canonical(cwd)
    requires i <= |entries| && ListEntries(fs, cwd, base, entries[..i], now).result.Failure?
    ensures ListEntries(fs, cwd, base, entries, now) == ListEntries(fs, cwd, base, entries[..i], now)
    decreases |entries|
  {
    if i < |entries| {
      var init := entries[..|entries| - 1];
      assert init[..i] == entries[..i];
      ListEntriesStops(fs, cwd, base, init, i, now);
    } else {
      assert entries[..i] == entries;
    }
  }

  /** Once writing a generated file throws, the later files are not written. */
  lemma {:induction false} WriteFilesStops(fs: FileSystem, cwd: Path, ws: string, files: seq<GeneratedFile>, i: nat)
    requires Canonical(cwd)
    requires i <= |files| && WriteFiles(fs, cwd, ws, files[..i]).result.Failure?
    ensures WriteFiles(fs, cwd, ws, files) == WriteFiles(fs, cwd, ws, files[..i])
    decreases |files|
  {
    if i < |files| {
      var init := files[..|files| - 1];
      assert init[..i] == files[..i];
      WriteFilesStops(fs, cwd, ws, init, i);
    } else {
      assert files[..i] == files;
    }
  }
}
