# AI Builder Dashboard main-process core, in Dafny

A model of the logic the AI Builder Dashboard's Electron main process runs on
behalf of the renderer, with proofs of what that logic promises:

- **The workspace manager** (`workspaceManager.js`). It covers the config
  document, whose defaults are backfilled on load and which is updated by
  shallow merge. It covers the history of runs, newest first and capped at 100,
  and the per-workspace prompt drafts. It covers the workspaces below the
  base directory: create, rename, delete and list them, the fixed skeleton of
  each (`notes`, `generated_code`, `assets`, `task.json`), and the writing of
  model-generated files behind the string-prefix guard.
- **The DeepSeek client** (`deepseekClient.js`). It covers the scanner that
  extracts ```` ```file:<path> ```` blocks from a reply, following the regular
  expression's lazy semantics and JavaScript's line terminators. It covers
  the decision logic of `runTask`, taking the HTTP outcome as an input.
- **The Pipedream integrations** (`pipedreamConnections.js`). It covers the
  supported list and its `connected` flags, and the connection test. It
  covers the OAuth authorization window as an event-driven state machine:
  redirect, navigation, token reply, token error and window close, with a
  promise that settles once.
- **The keychain wrapper** (`keychain.js`). It covers a secret map keyed by
  (service, account), in which saving a falsy secret deletes the entry.

Modules:

| module | file | role |
|---|---|---|
| `Wrappers` | `wrappers.dfy` | `Option` and `Result` |
| `Text` | `text.dfy` | `startsWith`, `includes` and `trim` with the ECMAScript whitespace set |
| `Json` | `json.dfy` | JSON values and truthiness; `?.`, `[0]` and `\|\|` on them |
| `Paths` | `paths.dfy` | POSIX `path.resolve`, `path.join` and `path.basename`; rendering back to strings; the prefix guard |
| `FileSystem` | `filesystem.dfy` | the file tree as a map from resolved path to directory or file; `mkdirp`, `outputFile`, `writeJSON`, `readJSON`, `remove` and `move` |
| `Config` | `config.dfy` | the config document, the history and the drafts, as values |
| `Workspaces` | `workspaces.dfy` | each workspace operation as a function from the tree it starts from to the tree it leaves and its result |
| `Manager` | `manager.dfy` | class `WorkspaceManager`, whose fields are the tree and the config file; each method is proved to leave the state its `Workspaces` or `Config` function describes |
| `DeepSeek` | `deepseek.dfy` | the block scanner (the `exec` loop as a method) and `runTask` |
| `Keychain` | `keychain.dfy` | the secret map, and class `Vault`, whose methods update it |
| `Pipedream` | `pipedream.dfy` | integrations, the connection test, the OAuth flow as pure step functions, and class `AuthorizationSession`, proved against those step functions |

Where the code's behaviour is easy to misread, the model follows the code:

- `{ ...DEFAULT_CONFIG, ...config }` copies the default `taskHistory` array
  by reference. When `config.json` has no `taskHistory`, `appendTaskHistory`
  `unshift`s onto the module's own default, and a later `ensureConfig` or
  load sees that entry. `Manager.DefaultConfig` holds that array and
  `Workspaces.DefaultHistoryLeaks` states the effect.
- The generated-file guard is a string-prefix test on resolved paths. It
  therefore lets through a sibling such as `/b/ws2/x` next to a workspace
  `/b/ws`. `Workspaces.AcceptedStaysNextTo` and `Workspaces.SiblingIsAccepted`
  state what it admits; no containment in the workspace is claimed.
- `createWorkspace` checks the empty name first, then the base directory, then
  the existing path.
- A failed nonce or code check resolves with "OAuth verification failed.".
- The authorization window is not closed exactly once. A token reply that
  arrives after the user has closed the window still runs the cleanup, which
  closes the window again. The model's `OnTokenReply` runs `Cleanup` whatever
  `windowOpen` says.

## Model

| member | source | states |
|---|---|---|
| Config.Spread | ai-builder-dashboard/app/main/workspaceManager.js:31 | `{ ...base, ...over }`: the keys of both, the value from `over` where it has one, from `base` otherwise |
| Config.Loaded | ai-builder-dashboard/app/main/workspaceManager.js:28-32 | the loaded config has every key of `DEFAULT_CONFIG`, whatever the file held |
| Config.StoredHistoryIgnoresDefaults | ai-builder-dashboard/app/main/workspaceManager.js:28-32 | a stored document with its own `taskHistory` loads the same whatever the shared default history holds |
| Config.HistoryUpdateIgnoresDefaults | ai-builder-dashboard/app/main/workspaceManager.js:34-45 | an update that sets `taskHistory` saves the same document whatever the shared default history holds |
| Config.LoadBackfillsDefaults | ai-builder-dashboard/app/main/workspaceManager.js:12-17 | loading a stored document gives exactly the default keys plus the stored ones; a stored value overrides the default, a missing key takes it, and a missing history is the current default array |
| Config.LoadOfComplete | ai-builder-dashboard/app/main/workspaceManager.js:28-32 | a document that already has every default key is loaded unchanged |
| Config.PushHistory | ai-builder-dashboard/app/main/workspaceManager.js:216-217 | the pushed list starts with the new entry, continues with the old entries in their order, and is cut to 100 |
| Config.Newest | ai-builder-dashboard/app/main/workspaceManager.js:217 | `slice(0, 100)`: the first `min(n, 100)` elements, as a prefix |
| Config.PushNewest | ai-builder-dashboard/app/main/workspaceManager.js:216-217 | pushing onto a cut history equals cutting after the push |
| Config.PushAllKeepsNewest | ai-builder-dashboard/app/main/workspaceManager.js:213-220 | after any number of appends the history is the newest 100 entries overall, newest first |
| Config.ClearedHistoryIsEmpty | ai-builder-dashboard/app/main/workspaceManager.js:222-229 | after `clearTaskHistory` the history reads back as `[]` |
| Config.DraftOf | ai-builder-dashboard/app/main/workspaceManager.js:238-241 | the stored draft for the path when it is truthy, and `""` otherwise (missing path, empty text, no drafts) |
| Config.SaveThenGetDraft | ai-builder-dashboard/app/main/workspaceManager.js:231-241 | after `savePromptDraft(p, t)`, `getPromptDraft(p)` gives `t` (`""` for empty `t`), and every other path reads as before |
| Config.UnknownDraftIsEmpty | ai-builder-dashboard/app/main/workspaceManager.js:238-241 | a path never saved reads as `""`, not as an error |
| Json.Get | ai-builder-dashboard/app/main/deepseekClient.js:65 | `v?.[key]`: defined exactly for an object that has the key, and then its value |
| Json.First | ai-builder-dashboard/app/main/deepseekClient.js:65 | `v?.[0]`: the first element of a non-empty array, property "0" of an object, nothing otherwise |
| Json.OrElse | ai-builder-dashboard/app/main/deepseekClient.js:65 | JavaScript's `or`: the first value when it is truthy, else the second |
| Text.TrimIsInfix | ai-builder-dashboard/app/main/deepseekClient.js:13 | `trim` gives the infix that neither starts nor ends with whitespace or a line terminator, with only such characters around it |
| Text.TrimOfTrimmed | ai-builder-dashboard/app/main/deepseekClient.js:13 | text with nothing to trim is its own trim |
| Paths.Split | ai-builder-dashboard/app/main/workspaceManager.js:199 | `split('/')` gives separator-free pieces that join back to the string |
| Paths.SplitJoin | ai-builder-dashboard/app/main/workspaceManager.js:199 | splitting the join of separator-free parts gives the parts back |
| Paths.Resolve | ai-builder-dashboard/app/main/workspaceManager.js:197-199 | `path.resolve` always yields a canonical path (no empty, ".", ".." segment) |
| Paths.RenderRoundTrip | ai-builder-dashboard/app/main/workspaceManager.js:197-199 | resolving the rendering of a resolved path gives the same path, from any working directory |
| Paths.NormalizeCanonical | ai-builder-dashboard/app/main/workspaceManager.js:199 | normalising plain names only appends them |
| Paths.ResolveChild | ai-builder-dashboard/app/main/workspaceManager.js:69 | resolving a name after other arguments appends it to their resolution |
| Paths.JoinedChild | ai-builder-dashboard/app/main/workspaceManager.js:103 | `path.join(a, name)` names the child `name` of what `a` names |
| Paths.BaseNameOfJoined | ai-builder-dashboard/app/main/workspaceManager.js:74 | the base name of `path.join(a, name)` is `name` |
| Paths.GuardAdmits | ai-builder-dashboard/app/main/workspaceManager.js:200 | the string-prefix guard admits exactly the targets that agree with the root up to its last segment and whose segment there starts with the root's last segment (everything for the root "/") |
| Paths.GuardAdmitsWithin | ai-builder-dashboard/app/main/workspaceManager.js:200 | every target at or below the root passes the guard |
| FileSystem.MkdirP | ai-builder-dashboard/app/main/workspaceManager.js:69 | `mkdirp` succeeds iff no file stands on the way; afterwards every directory on the way exists, every entry is kept, and only directories on the way are added |
| FileSystem.Remove | ai-builder-dashboard/app/main/workspaceManager.js:175 | `remove` drops exactly the subtree at the path and keeps every other entry |
| FileSystem.Moved | ai-builder-dashboard/app/main/workspaceManager.js:155 | the re-rooted subtree holds each entry of the source subtree at the same place below the destination, and nothing else |
| FileSystem.OutputFile | ai-builder-dashboard/app/main/workspaceManager.js:203 | `outputFile` succeeds iff the target is no directory and no file stands on the way to its parent; it writes the text at the target, keeps every other entry and adds only directories on the way |
| FileSystem.WriteDoc | ai-builder-dashboard/app/main/workspaceManager.js:79 | `writeJSON` succeeds iff the target is no directory and its parent is one; it replaces just that entry |
| FileSystem.ReadJson | ai-builder-dashboard/app/main/workspaceManager.js:89 | `readJSON` succeeds exactly on a file holding a JSON document and returns that document; otherwise it fails as unreadable |
| FileSystem.MkdirPWellFormed | ai-builder-dashboard/app/main/workspaceManager.js:69 | `mkdirp` keeps the tree well formed (every entry canonical and inside a directory) |
| FileSystem.MkdirPExisting | ai-builder-dashboard/app/main/workspaceManager.js:69 | `mkdirp` of a path whose directories all exist changes nothing |
| FileSystem.MkdirPBelow | ai-builder-dashboard/app/main/workspaceManager.js:137 | `mkdirp` below an existing directory fails only on a file below it and adds only directories below it |
| FileSystem.RemoveWellFormed | ai-builder-dashboard/app/main/workspaceManager.js:175 | `remove` keeps the tree well formed |
| FileSystem.OutputFileWellFormed | ai-builder-dashboard/app/main/workspaceManager.js:203 | `outputFile` keeps the tree well formed |
| FileSystem.WriteDocWellFormed | ai-builder-dashboard/app/main/workspaceManager.js:79 | `writeJSON` keeps the tree well formed |
| FileSystem.MoveWellFormed | ai-builder-dashboard/app/main/workspaceManager.js:155 | `move` to a fresh destination keeps the tree well formed |
| FileSystem.MoveSucceeds | ai-builder-dashboard/app/main/workspaceManager.js:155 | `move` refuses a missing source, then a destination inside the source; past those it succeeds exactly when no file stands on the way to the destination's parent and the destination does not exist, failing with "dest already exists." when it does |
| FileSystem.MoveCarries | ai-builder-dashboard/app/main/workspaceManager.js:155 | a successful move puts every entry of the source subtree at the same place below the destination |
| FileSystem.MoveKeepsOthers | ai-builder-dashboard/app/main/workspaceManager.js:155 | a move to a fresh destination keeps every entry outside the source subtree |
| FileSystem.MoveLeavesNothing | ai-builder-dashboard/app/main/workspaceManager.js:155 | after a move nothing is left at or below the source |
| FileSystem.MoveAddsOnly | ai-builder-dashboard/app/main/workspaceManager.js:155 | a move adds only entries below the destination or directories on the way to its parent |
| FileSystem.NothingBelow | ai-builder-dashboard/app/main/workspaceManager.js:149 | nothing is stored at or below a path that does not exist |
| Workspaces.BaseOf | ai-builder-dashboard/app/main/workspaceManager.js:130-132 | a base directory is unset exactly when it is falsy; a truthy string is used as given |
| Workspaces.SetProps | ai-builder-dashboard/app/main/workspaceManager.js:158-160 | `metadata.k = v`: an object takes the properties, `null` throws, any other value is left as it is |
| Workspaces.Metadata | ai-builder-dashboard/app/main/workspaceManager.js:83-94 | `parseWorkspaceMetadata`: the document in `task.json` when that is a file holding one, and `null` exactly when it is missing or unreadable |
| Workspaces.AppendHistory | ai-builder-dashboard/app/main/workspaceManager.js:213-220 | an array history gets the entry pushed; a truthy non-array history makes `unshift` throw |
| Workspaces.DefaultHistoryLeaks | ai-builder-dashboard/app/main/workspaceManager.js:213-216 | on a config file without `taskHistory` the append succeeds and its entry stays in `DEFAULT_CONFIG.taskHistory`: a config file removed later is rewritten holding it, and a later file without a history loads it |
| Workspaces.FoldersAreNames | ai-builder-dashboard/app/main/workspaceManager.js:67 | the three folders and `task.json` are plain names |
| Workspaces.MakeFoldersKeeps | ai-builder-dashboard/app/main/workspaceManager.js:68-70 | the folder loop keeps every entry and adds only directories directly below the workspace, one per folder |
| Workspaces.MakeFoldersSucceeds | ai-builder-dashboard/app/main/workspaceManager.js:68-70 | the folder loop fails exactly when a file stands where a folder goes |
| Workspaces.MakeFoldersMade | ai-builder-dashboard/app/main/workspaceManager.js:68-70 | after a successful folder loop every folder is a directory |
| Workspaces.MakeFoldersWellFormed | ai-builder-dashboard/app/main/workspaceManager.js:68-70 | the folder loop keeps the tree well formed |
| Workspaces.MakeFoldersExisting | ai-builder-dashboard/app/main/workspaceManager.js:68-70 | when every folder exists the loop changes nothing |
| Workspaces.MakeFoldersStep | ai-builder-dashboard/app/main/workspaceManager.js:68-70 | one more folder of the loop is one more `mkdirp`, unless it throws |
| Workspaces.MakeFoldersStops | ai-builder-dashboard/app/main/workspaceManager.js:68-70 | once a `mkdirp` throws, the later folders are not tried |
| Workspaces.StructureSucceeds | ai-builder-dashboard/app/main/workspaceManager.js:66-81 | `ensureWorkspaceStructure` fails exactly when a file stands where a folder goes |
| Workspaces.StructureKeeps | ai-builder-dashboard/app/main/workspaceManager.js:66-81 | `ensureWorkspaceStructure` keeps every entry and adds only the three folders and `task.json` |
| Workspaces.StructureFolders | ai-builder-dashboard/app/main/workspaceManager.js:67-70 | after `ensureWorkspaceStructure`, `notes`, `generated_code` and `assets` are directories |
| Workspaces.StructureTask | ai-builder-dashboard/app/main/workspaceManager.js:71-80 | afterwards `task.json` exists: the new metadata (base name, empty description) if it was missing, untouched if it was there |
| Workspaces.StructureWellFormed | ai-builder-dashboard/app/main/workspaceManager.js:66-81 | `ensureWorkspaceStructure` keeps the tree well formed |
| Workspaces.StructureAgain | ai-builder-dashboard/app/main/workspaceManager.js:66-81 | a second `ensureWorkspaceStructure` changes nothing and succeeds |
| Workspaces.StructureAdds | ai-builder-dashboard/app/main/workspaceManager.js:66-81 | every entry it adds lies directly below the workspace: a folder as a directory, `task.json` as the fresh metadata |
| Workspaces.EntryPath | ai-builder-dashboard/app/main/workspaceManager.js:103 | a listing entry names the child of the base directory with that name |
| Workspaces.ListStepGrows | ai-builder-dashboard/app/main/workspaceManager.js:102-113 | one listing entry grows the tree only by folders and fresh `task.json` files below the base |
| Workspaces.ListStep | ai-builder-dashboard/app/main/workspaceManager.js:102-113 | one listing entry on a grown tree keeps it well formed and grown as allowed |
| Workspaces.ListKeeps | ai-builder-dashboard/app/main/workspaceManager.js:102-113 | the listing keeps every entry, adds only folders and fresh `task.json` files two levels below the base, and keeps the tree well formed |
| Workspaces.GrownSeesTheSame | ai-builder-dashboard/app/main/workspaceManager.js:104-106 | the listing's own additions change no entry's directory test and no folder's file test |
| Workspaces.ListSucceeds | ai-builder-dashboard/app/main/workspaceManager.js:102-113 | the listing fails exactly when some listed directory has a file where one of its folders goes |
| Workspaces.ListMetadata | ai-builder-dashboard/app/main/workspaceManager.js:107 | each listed workspace reports the metadata it had, or the fresh one when it had none |
| Workspaces.ListResult | ai-builder-dashboard/app/main/workspaceManager.js:101-114 | a successful listing is one record per directory entry, in listing order, with the entry's name, its path and its metadata |
| Workspaces.ListingFitsStep | ai-builder-dashboard/app/main/workspaceManager.js:102-113 | the condition for the listing to succeed, entry by entry |
| Workspaces.ListWorkspacesFacts | ai-builder-dashboard/app/main/workspaceManager.js:96-115 | `[]` for a falsy or non-string base and for a missing base; a file as base throws; otherwise the success condition and the result above |
| Workspaces.ListEntriesStep | ai-builder-dashboard/app/main/workspaceManager.js:102-113 | one more listing entry: skipped unless a directory, else given its structure and reported with its metadata, unless that throws |
| Workspaces.ListEntriesStops | ai-builder-dashboard/app/main/workspaceManager.js:102-113 | once preparing a listed workspace throws, later entries are not visited |
| Workspaces.CreateRefusals | ai-builder-dashboard/app/main/workspaceManager.js:127-136 | `createWorkspace` refuses an empty name, then an unset base, then an existing path, in that order, changing nothing |
| Workspaces.FreshWorkspace | ai-builder-dashboard/app/main/workspaceManager.js:137 | `mkdirp` of a fresh workspace gives a well-formed tree with the whole chain to it and nothing inside it |
| Workspaces.LaySucceeds | ai-builder-dashboard/app/main/workspaceManager.js:137-139 | past its checks `createWorkspace` fails only on a file standing on the way, and then changes nothing; on success it returns the name and path |
| Workspaces.LayBuilds | ai-builder-dashboard/app/main/workspaceManager.js:137-139 | a created workspace is a directory with its three folders and fresh `task.json`; every entry is kept, and new ones lie only on the way to it or in its skeleton |
| Workspaces.CreateLays | ai-builder-dashboard/app/main/workspaceManager.js:133-139 | past its checks `createWorkspace` lays out the joined path, named by its base name |
| Workspaces.CreateSimpleName | ai-builder-dashboard/app/main/workspaceManager.js:133 | for a plain name the workspace is that child of the base and its metadata carries the name |
| Workspaces.TouchOnly | ai-builder-dashboard/app/main/workspaceManager.js:156-162 | updating `task.json` changes at most that entry and adds or drops none |
| Workspaces.TouchObject | ai-builder-dashboard/app/main/workspaceManager.js:157-161 | an object `task.json` takes the new properties and keeps the others |
| Workspaces.TouchRefusals | ai-builder-dashboard/app/main/workspaceManager.js:157-161 | a missing `task.json` is no error; an unreadable one or a `null` document throws and changes nothing; another non-object is written back as it was |
| Workspaces.TouchWellFormed | ai-builder-dashboard/app/main/workspaceManager.js:156-162 | updating `task.json` keeps the tree well formed |
| Workspaces.RenameRefusals | ai-builder-dashboard/app/main/workspaceManager.js:142-154 | `renameWorkspace` refuses an unset base, then a missing old path, then an existing new path, changing nothing |
| Workspaces.RenameRelocatesAfterChecks | ai-builder-dashboard/app/main/workspaceManager.js:147-155 | past its checks `renameWorkspace` moves the old path to the new one |
| Workspaces.RelocateOutcome | ai-builder-dashboard/app/main/workspaceManager.js:155-163 | a failed move changes nothing; success returns both names |
| Workspaces.RelocateTouches | ai-builder-dashboard/app/main/workspaceManager.js:155-162 | after the move the rename is the property update of the moved `task.json` |
| Workspaces.RelocateMoves | ai-builder-dashboard/app/main/workspaceManager.js:155-162 | after a rename the subtree sits at the new path, nothing is left at the old one, everything outside is kept, and the tree stays well formed |
| Workspaces.MovedTaskFile | ai-builder-dashboard/app/main/workspaceManager.js:155-157 | the move takes `task.json` along to the new path |
| Workspaces.RelocateStamps | ai-builder-dashboard/app/main/workspaceManager.js:156-162 | a moved object `task.json` gets `name = newName` and the new `updatedAt`, keeping its other properties |
| Workspaces.DeleteRefusals | ai-builder-dashboard/app/main/workspaceManager.js:166-174 | `deleteWorkspace` refuses an unset base, then a missing path, changing nothing |
| Workspaces.DeleteRemoves | ai-builder-dashboard/app/main/workspaceManager.js:171-176 | past its checks `deleteWorkspace` returns the name and removes exactly that subtree |
| Workspaces.AcceptedFiles | ai-builder-dashboard/app/main/workspaceManager.js:198-202 | the files the guard lets through, in their order |
| Workspaces.WriteFilesSkipsRejected | ai-builder-dashboard/app/main/workspaceManager.js:198-204 | writing all the files has exactly the effect of writing only the accepted ones |
| Workspaces.ApplyAllRejected | ai-builder-dashboard/app/main/workspaceManager.js:196-211 | when every file is rejected only the `updatedAt` update happens |
| Workspaces.AcceptedAreFromFiles | ai-builder-dashboard/app/main/workspaceManager.js:198-202 | every accepted file is one of the input files |
| Workspaces.FailureSticks | ai-builder-dashboard/app/main/workspaceManager.js:198-204 | a run of writes that succeeds succeeded at every earlier step |
| Workspaces.LastWriteWins | ai-builder-dashboard/app/main/workspaceManager.js:198-204 | an accepted file's target holds its content unless a later accepted file has the same target |
| Workspaces.WriteFilesKeeps | ai-builder-dashboard/app/main/workspaceManager.js:198-204 | an entry that is no accepted file's target is unchanged |
| Workspaces.WriteStep | ai-builder-dashboard/app/main/workspaceManager.js:198-204 | one more file leaves the tree as it was or is the write of that accepted file |
| Workspaces.OutputMadeFor | ai-builder-dashboard/app/main/workspaceManager.js:203 | what one write adds is its target or a directory on the way to it |
| Workspaces.WriteFilesAddsOnly | ai-builder-dashboard/app/main/workspaceManager.js:198-204 | every entry the writes add is an accepted file's target or a directory on the way to one |
| Workspaces.LastWriteAdds | ai-builder-dashboard/app/main/workspaceManager.js:203 | an entry the last write touched is what that accepted file made |
| Workspaces.KeptHoldsTheSame | ai-builder-dashboard/app/main/workspaceManager.js:198-204 | an entry the last write left alone holds what it held before it |
| Workspaces.WriteFilesWellFormed | ai-builder-dashboard/app/main/workspaceManager.js:198-204 | the writes keep the tree well formed |
| Workspaces.WriteFilesStep | ai-builder-dashboard/app/main/workspaceManager.js:198-204 | one more file of the loop is one more `WriteOne` |
| Workspaces.WriteFilesStops | ai-builder-dashboard/app/main/workspaceManager.js:198-204 | once a write throws, the later files are not written |
| Workspaces.ApplyStamps | ai-builder-dashboard/app/main/workspaceManager.js:205-210 | after the writes an object `task.json` gets the new `updatedAt` and keeps its other properties |
| Workspaces.InsideIsAccepted | ai-builder-dashboard/app/main/workspaceManager.js:197-202 | every target inside the workspace passes the guard |
| Workspaces.AcceptedStaysNextTo | ai-builder-dashboard/app/main/workspaceManager.js:197-202 | an accepted target lies in the directory holding the workspace, in an entry whose name starts with the workspace's name (so siblings get through) |
| Workspaces.SiblingIsAccepted | ai-builder-dashboard/app/main/workspaceManager.js:197-203 | with the workspace at `/b/ws`, the file `../ws2/x` passes the guard and targets `/b/ws2/x` |
| Manager.DefaultConfig.constructor | ai-builder-dashboard/app/main/workspaceManager.js:12-17 | `DEFAULT_CONFIG.taskHistory` starts empty |
| Manager.WorkspaceManager.EnsureConfig | ai-builder-dashboard/app/main/workspaceManager.js:19-26 | the defaults as they currently stand, shared history included, are written when there is no config file; otherwise nothing changes |
| Manager.WorkspaceManager.LoadConfig | ai-builder-dashboard/app/main/workspaceManager.js:28-32 | returns the loaded config (defaults under the stored document) and leaves the file written |
| Manager.WorkspaceManager.SaveConfig | ai-builder-dashboard/app/main/workspaceManager.js:34-38 | the file holds the given config, which is returned |
| Manager.WorkspaceManager.UpdateConfig | ai-builder-dashboard/app/main/workspaceManager.js:40-45 | the loaded config with the partial spread over it is both saved and returned |
| Manager.WorkspaceManager.SetBaseDirectory | ai-builder-dashboard/app/main/workspaceManager.js:47-53 | the value is saved whatever it is; a truthy string is then created with `mkdirp`; a truthy non-string throws |
| Manager.WorkspaceManager.MakeFoldersBelow | ai-builder-dashboard/app/main/workspaceManager.js:68-70 | leaves the file system and result of the folder loop |
| Manager.WorkspaceManager.EnsureWorkspaceStructure | ai-builder-dashboard/app/main/workspaceManager.js:66-81 | leaves the file system and result of `ensureWorkspaceStructure`; the config file is untouched |
| Manager.WorkspaceManager.ListWorkspaces | ai-builder-dashboard/app/main/workspaceManager.js:96-115 | leaves the file system and result of `listWorkspaces` |
| Manager.WorkspaceManager.ListEntriesBelow | ai-builder-dashboard/app/main/workspaceManager.js:102-113 | leaves the file system and result of the listing loop |
| Manager.WorkspaceManager.GetWorkspaceOverview | ai-builder-dashboard/app/main/workspaceManager.js:117-125 | the loaded base directory and theme with the listing of that base |
| Manager.WorkspaceManager.CreateWorkspace | ai-builder-dashboard/app/main/workspaceManager.js:127-140 | leaves the file system and result of `createWorkspace`; an empty name is refused before the config is loaded |
| Manager.WorkspaceManager.RenameWorkspace | ai-builder-dashboard/app/main/workspaceManager.js:142-164 | leaves the file system and result of `renameWorkspace` |
| Manager.WorkspaceManager.DeleteWorkspace | ai-builder-dashboard/app/main/workspaceManager.js:166-177 | leaves the file system and result of `deleteWorkspace` |
| Manager.WorkspaceManager.WriteGeneratedFiles | ai-builder-dashboard/app/main/workspaceManager.js:198-204 | leaves the file system and result of the write loop |
| Manager.WorkspaceManager.ApplyGeneratedFiles | ai-builder-dashboard/app/main/workspaceManager.js:196-211 | leaves the file system and result of `applyGeneratedFiles` |
| Manager.WorkspaceManager.AppendTaskHistory | ai-builder-dashboard/app/main/workspaceManager.js:213-220 | saves and returns the pushed history, or throws on a non-array history; when the loaded history is the shared default array, `DEFAULT_CONFIG.taskHistory` keeps the uncut `unshift` |
| Manager.WorkspaceManager.GetTaskHistory | ai-builder-dashboard/app/main/workspaceManager.js:222-225 | the loaded `taskHistory`, or `[]` when it is falsy |
| Manager.WorkspaceManager.ClearTaskHistory | ai-builder-dashboard/app/main/workspaceManager.js:227-229 | the saved config has an empty history and is otherwise the loaded one |
| Manager.WorkspaceManager.SavePromptDraft | ai-builder-dashboard/app/main/workspaceManager.js:231-236 | the saved config carries the drafts with this path's draft set, and is otherwise the loaded one |
| Manager.WorkspaceManager.GetPromptDraft | ai-builder-dashboard/app/main/workspaceManager.js:238-241 | the loaded config's draft for the path, or `""` |
| DeepSeek.HeaderEnd | ai-builder-dashboard/app/main/deepseekClient.js:9 | the header scan stops within the text |
| DeepSeek.HeaderEndStops | ai-builder-dashboard/app/main/deepseekClient.js:9 | the lazy `(.+?)` stops at the first line terminator and nowhere before it |
| DeepSeek.FenceAtOccurs | ai-builder-dashboard/app/main/deepseekClient.js:9 | a fence at a position, character by character, is an occurrence of "```" |
| DeepSeek.FenceFromFirst | ai-builder-dashboard/app/main/deepseekClient.js:9 | the lazy `([\s\S]*?)` ends at the leftmost fence, or there is none |
| DeepSeek.MatchAt | ai-builder-dashboard/app/main/deepseekClient.js:9 | a match starts with the opener, has a non-empty header ended by a newline, then content and a closing fence inside the text |
| DeepSeek.NextMatch | ai-builder-dashboard/app/main/deepseekClient.js:11 | `exec` from `lastIndex` finds a match at or after it, inside the text |
| DeepSeek.NextMatchFound | ai-builder-dashboard/app/main/deepseekClient.js:11 | what `exec` finds is a match of the pattern where it starts |
| DeepSeek.NextMatchIsLeftmost | ai-builder-dashboard/app/main/deepseekClient.js:11 | `exec` finds the leftmost match, and none at all when it finds nothing |
| DeepSeek.Blocks | ai-builder-dashboard/app/main/deepseekClient.js:10-16 | every match of the global scan lies inside the text, at or after where the scan began |
| DeepSeek.BlocksInOrder | ai-builder-dashboard/app/main/deepseekClient.js:10-16 | matches come in text order and do not overlap: each starts after the previous closing fence |
| DeepSeek.BlocksAreMatches | ai-builder-dashboard/app/main/deepseekClient.js:10-16 | every block of the scan is a match of the pattern where it starts |
| DeepSeek.FilesOf | ai-builder-dashboard/app/main/deepseekClient.js:12-15 | one file per block |
| DeepSeek.FilesOfBlocks | ai-builder-dashboard/app/main/deepseekClient.js:12-15 | the k-th file is built from the k-th match |
| DeepSeek.FilesFromStep | ai-builder-dashboard/app/main/deepseekClient.js:10-16 | one turn of the loop: the file of the next match, then the files after its fence |
| DeepSeek.FilesFromNone | ai-builder-dashboard/app/main/deepseekClient.js:10-11 | no further match, no further files |
| DeepSeek.NextMatchHere | ai-builder-dashboard/app/main/deepseekClient.js:11 | a match at `lastIndex` is the one `exec` returns |
| DeepSeek.NextMatchAtEnd | ai-builder-dashboard/app/main/deepseekClient.js:11 | there is no match from the end of the text on |
| DeepSeek.BlocksStep | ai-builder-dashboard/app/main/deepseekClient.js:10-16 | the scan is the first match, then the scan from after its fence |
| DeepSeek.Exec | ai-builder-dashboard/app/main/deepseekClient.js:11 | one `regex.exec` call returns the leftmost match from `lastIndex` |
| DeepSeek.ScanAppends | ai-builder-dashboard/app/main/deepseekClient.js:10-16 | the loop appends the files of the remaining matches to those it has |
| DeepSeek.ParsedFileAt | ai-builder-dashboard/app/main/deepseekClient.js:9-15 | the k-th parsed file comes from the k-th match, which starts with the opener after the previous match's closing fence; its path is the trim of the header line ended by "\n", and its content runs up to the closing fence and contains no "```" |
| DeepSeek.ParseGeneratedFiles | ai-builder-dashboard/app/main/deepseekClient.js:7-18 | `parseGeneratedFiles` returns one file per match of the global expression, in order |
| DeepSeek.NoOpenerNoFiles | ai-builder-dashboard/app/main/deepseekClient.js:7-18 | text without "```file:" yields no files |
| DeepSeek.OpenerAtOccurs | ai-builder-dashboard/app/main/deepseekClient.js:9 | the opener test, character by character, is an occurrence of "```file:" |
| DeepSeek.MatchHeader | ai-builder-dashboard/app/main/deepseekClient.js:9-13 | each path is the trim of a non-empty header line, without line terminators, ended by "\n" |
| DeepSeek.MatchContent | ai-builder-dashboard/app/main/deepseekClient.js:9-14 | each content is the text up to the closing fence and contains no "```" |
| DeepSeek.SingleBlock | ai-builder-dashboard/app/main/deepseekClient.js:9-14 | "```file:" + P + "\n" + C + "```" gives exactly `[{ path: trim(P), content: C }]` (C without "```" and not ending in a backtick) |
| DeepSeek.SingleBlockIn | ai-builder-dashboard/app/main/deepseekClient.js:9-14 | the same for a text laid out that way |
| DeepSeek.OnlyMatch | ai-builder-dashboard/app/main/deepseekClient.js:10-16 | a first match whose fence ends the text is the only one |
| DeepSeek.FileOfParts | ai-builder-dashboard/app/main/deepseekClient.js:12-15 | the file of a match with header P and content C is `{ trim(P), C }` |
| DeepSeek.SingleMatchIn | ai-builder-dashboard/app/main/deepseekClient.js:9 | such a text matches at 0 with the header and content where they were put |
| DeepSeek.HeaderIn | ai-builder-dashboard/app/main/deepseekClient.js:9 | a header free of line terminators ends at the "\n" after it |
| DeepSeek.FenceIn | ai-builder-dashboard/app/main/deepseekClient.js:9 | content free of fences, not ending in a backtick, is closed by the fence after it |
| DeepSeek.HeaderEndIsFirst | ai-builder-dashboard/app/main/deepseekClient.js:9 | the header ends at the first line terminator |
| DeepSeek.FenceFromIsFirst | ai-builder-dashboard/app/main/deepseekClient.js:9 | the content ends at the first fence |
| DeepSeek.RequestFor | ai-builder-dashboard/app/main/deepseekClient.js:38-56 | the code endpoint and model iff the model is "deepseek-code", the chat ones otherwise; the prompt as user message; the bearer key |
| DeepSeek.ReplyMessage | ai-builder-dashboard/app/main/deepseekClient.js:65 | the content at `data.choices[0].message.content` when it is truthy, "No response." when it is missing or falsy; always truthy |
| DeepSeek.RunTask | ai-builder-dashboard/app/main/deepseekClient.js:20-79 | throws on an empty model, then an empty prompt; no request without a key (sentinel, no files); otherwise the request for the model; files only in "generate-files" mode on an answered request |
| DeepSeek.RunTaskAnswered | ai-builder-dashboard/app/main/deepseekClient.js:58-71 | an answered request gives its content as message, its blocks as files in "generate-files" mode, and the reply's id when it has one |
| DeepSeek.RunTaskNoContent | ai-builder-dashboard/app/main/deepseekClient.js:65-71 | every reply whose content is missing or falsy gives "No response.", no files, and the reply's id or the fresh one |
| DeepSeek.RunTaskFailed | ai-builder-dashboard/app/main/deepseekClient.js:72-78 | a failed request gives "DeepSeek API request failed: " + message, a fresh id and no files |
| Keychain.Lookup | ai-builder-dashboard/app/main/keychain.js:13-15 | `getPassword` gives the secret stored for the account under the service name, or nothing |
| Keychain.Erased | ai-builder-dashboard/app/main/keychain.js:17-20 | `deletePassword` removes that entry and keeps every other one |
| Keychain.Saved | ai-builder-dashboard/app/main/keychain.js:5-11 | a falsy secret is a delete; any other is stored for the account; other entries are kept |
| Keychain.SaveThenGet | ai-builder-dashboard/app/main/keychain.js:5-15 | after a save, `getCredential` gives the secret, or nothing for a falsy one |
| Keychain.DeleteThenGet | ai-builder-dashboard/app/main/keychain.js:13-20 | after a delete, `getCredential` gives nothing |
| Keychain.OthersUntouched | ai-builder-dashboard/app/main/keychain.js:3-20 | saving or deleting one account leaves every other account and every other service as it was |
| Keychain.LatestSaveWins | ai-builder-dashboard/app/main/keychain.js:5-20 | deleting twice is deleting once; a later save of the same account replaces an earlier one |
| Keychain.Vault.DeleteCredential | ai-builder-dashboard/app/main/keychain.js:17-20 | the store loses the entry and the call returns `true` |
| Keychain.Vault.SaveCredential | ai-builder-dashboard/app/main/keychain.js:5-11 | the store is the saved store and the call returns `true` on both paths |
| Keychain.Vault.GetCredential | ai-builder-dashboard/app/main/keychain.js:13-15 | returns the lookup of the account |
| Pipedream.CredentialKey | ai-builder-dashboard/app/main/pipedreamConnections.js:15-17 | the key is "integration-" followed by the id, which can be read back from it |
| Pipedream.CredentialKeyInjective | ai-builder-dashboard/app/main/pipedreamConnections.js:15-17 | different integrations never share a keychain entry |
| Pipedream.ListIntegrations | ai-builder-dashboard/app/main/pipedreamConnections.js:19-29 | the six supported integrations in declared order, each connected iff the keychain holds a non-empty token for it |
| Pipedream.TestIntegration | ai-builder-dashboard/app/main/pipedreamConnections.js:126-144 | "not connected" without a token; success iff there is a token and the reply's `data` is an array; otherwise the unexpected-reply or the thrown message |
| Pipedream.NoTokenNoRequest | ai-builder-dashboard/app/main/pipedreamConnections.js:127-130 | without a token the verdict does not depend on any reply |
| Pipedream.Authorize | ai-builder-dashboard/app/main/pipedreamConnections.js:31-46 | fails with the missing-credentials verdict iff the client id or secret is missing; otherwise the authorization URL starts with the endpoint and the client id, carries the encoded callback address with the code grant and offline scope, and ends with the `state` nonce that the callback is later checked against, followed by the integration id |
| Pipedream.Settle | ai-builder-dashboard/app/main/pipedreamConnections.js:68 | a promise settles once: a later `resolve` changes nothing |
| Pipedream.Cleanup | ai-builder-dashboard/app/main/pipedreamConnections.js:64-69 | the listeners are removed, the window closed, the promise settled (first resolution kept) |
| Pipedream.OnRedirect | ai-builder-dashboard/app/main/pipedreamConnections.js:71-98 | a redirect off the callback URI, or after cleanup, changes nothing; a failed code/state check is cancelled and settles "OAuth verification failed." with no request; a verified one is cancelled and sends its code |
| Pipedream.OnNavigate | ai-builder-dashboard/app/main/pipedreamConnections.js:113-118 | a navigation to the logout URL is cancelled and handed to the external browser; any other is left alone |
| Pipedream.OnTokenReply | ai-builder-dashboard/app/main/pipedreamConnections.js:100-107 | no token settles "Failed to retrieve access token." without a save; a token is saved, then the flow settles with "<id> connected successfully." |
| Pipedream.OnTokenError | ai-builder-dashboard/app/main/pipedreamConnections.js:108-110 | a thrown token request settles "OAuth exchange failed: " + message, with no save |
| Pipedream.OnClosed | ai-builder-dashboard/app/main/pipedreamConnections.js:120-122 | closing the window settles "OAuth window closed before completion." unless the flow settled before |
| Pipedream.FirstResolutionWins | ai-builder-dashboard/app/main/pipedreamConnections.js:48-122 | once settled, no event changes the result |
| Pipedream.DetachedStaysDetached | ai-builder-dashboard/app/main/pipedreamConnections.js:64-66 | after cleanup no redirect or navigation sends a token request |
| Pipedream.RequestsNeedVerifiedRedirects | ai-builder-dashboard/app/main/pipedreamConnections.js:72-98 | every token request carries the code of a redirect to the callback that passed the nonce check |
| Pipedream.SavesNeedRequests | ai-builder-dashboard/app/main/pipedreamConnections.js:86-106 | a run saves at most as many tokens as it sent requests |
| Pipedream.SuccessMeansSaved | ai-builder-dashboard/app/main/pipedreamConnections.js:106-107 | a flow that resolves with success has saved a token |
| Pipedream.ClosedEarly | ai-builder-dashboard/app/main/pipedreamConnections.js:120-122 | the window closed before anything settled gives the early-close verdict |
| Pipedream.VerificationFailure | ai-builder-dashboard/app/main/pipedreamConnections.js:80-83 | a redirect that fails verification settles as failed and neither requests nor saves a token |
| Pipedream.HappyPath | ai-builder-dashboard/app/main/pipedreamConnections.js:71-107 | a verified callback and a token: the token is saved, the code sent once, the flow settles with success |
| Pipedream.AuthorizationSession.constructor | ai-builder-dashboard/app/main/pipedreamConnections.js:32-60 | a session exists only when both credentials are present, and starts with the window open, the listeners attached and nothing settled, at the URL `Authorize` built |
| Pipedream.AuthorizationSession.OnWillRedirect | ai-builder-dashboard/app/main/pipedreamConnections.js:71-98 | the flow and the sent codes follow `OnRedirect` |
| Pipedream.AuthorizationSession.OnWillNavigate | ai-builder-dashboard/app/main/pipedreamConnections.js:113-118 | the cancel decision and the external launches follow `OnNavigate` |
| Pipedream.AuthorizationSession.ReceiveToken | ai-builder-dashboard/app/main/pipedreamConnections.js:100-107 | the flow follows `OnTokenReply`, and the keychain gets its save under the integration's key |
| Pipedream.AuthorizationSession.ReceiveTokenError | ai-builder-dashboard/app/main/pipedreamConnections.js:108-110 | the flow follows `OnTokenError` |
| Pipedream.AuthorizationSession.OnWindowClosed | ai-builder-dashboard/app/main/pipedreamConnections.js:120-122 | the flow follows `OnClosed` |

## Left out

- `watchBaseDirectory` and the chokidar watcher are asynchronous notification, outside this model. So are main.js, preload.js and the renderer.
- I/O is replaced by its results. Node's `fs` and `fs-extra` become the functions of module `FileSystem` over a map. The HTTP calls, `BrowserWindow` and `shell.openExternal` become inputs and events. The keychain is the `Vault` map.
- Timestamps (`new Date().toISOString()`), `crypto.randomUUID()` and the OAuth nonce (`crypto.randomBytes`) are parameters (`now`, `freshId`, `state`).
- `ensureConfig` also creates the config directory with `mkdirp`. The location of the config file and its directory are not modelled, so the config file is a separate field rather than an entry of the tree.
- A `config.json` that is not a JSON object, or that cannot be parsed, is outside the model. `Config` is always an object.
- JSON pretty-printing (`{ spaces: 2 }`) and the text form of documents are not modelled. A file holds either text or a JSON document, and text at `task.json` reads as unparseable.
- `getWorkspacePaths` is not modelled. No core operation calls it.
- Paths are POSIX only. On Windows, `path.resolve` gives drive letters and backslashes, and the generated-file guard compares those strings; that variant of `Paths` is not modelled.
- `Manager.WorkspaceManager.ListWorkspaces` takes what `readdir` returns for the base directory as the input `listing`, in the order given. The lemmas about the listing take the entries to be plain names, as `readdir` returns them.
- Workspace paths are reported as the resolved path (a sequence of segments), not as the `path.join` string. A relative base directory that `path.join` keeps relative is reported resolved against the process's working directory.
- `path.join` is modelled without its normalisation. `Resolve` normalises, so the location named does not change.
- `Config.DraftsOf` spreads only an object-valued `promptDrafts`. Spreading a string (which copies its characters as keys) or another truthy non-object is not modelled.
- `Json` numbers are integers. The request temperatures (0.3 and 0.4) are kept as tenths in `DeepSeek.ChatRequest`.
- `DeepSeek.RunTask` runs the scanner only on a string message. A truthy non-string `content`, which `regex.exec` would turn into a string first, yields no files here.
- The bodies and headers of the Pipedream token exchange and of the sources GET are not modelled. Nor are the `BrowserWindow` options or the `loadURL` call. The token reply is reduced to `data?.access_token`.
- URL parsing (`new URL(url).searchParams`) is not modelled. A redirect carries its query as a map.
- Keytar failures, and the exceptions they would make `saveCredential` and the exchange handler throw, are not modelled. Every keychain call succeeds.
- The model does not decide whether `close()` on a window the user has already closed throws; that depends on the Electron runtime. The cleanup just records the window as closed.
- The loops of `ensureWorkspaceStructure`, `listWorkspaces` and `applyGeneratedFiles` are separate methods, which their callers invoke: `MakeFoldersBelow`, `ListEntriesBelow` and `WriteGeneratedFiles`. Their behaviour is the same as the inline loops.
- Two further properties are not stated as lemmas. One is that a rename followed by the reverse rename restores the tree. The other is the end-to-end run from setting the base directory to a written `notes/plan.md`. The lemmas they would combine are in the table: `RelocateMoves`, `RelocateStamps`, `LayBuilds`, `SingleBlock` and `LastWriteWins`.
