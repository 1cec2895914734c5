/** The persisted configuration document of the workspace manager: defaults
    backfilled on load, shallow-merge updates, the bounded newest-first task
    history and the per-workspace prompt drafts. Values only; class
    `WorkspaceManager` in module Manager holds the stored document and the
    default history, and calls these. */
module Config {
  import opened Wrappers
  import opened Json

  /** A JSON object as the config file stores it. */
  type Config = map<string, Json>

  /** `DEFAULT_CONFIG` as the program starts. */
  const DEFAULT_CONFIG: Config := map[
    "baseDirectory" := JNull,
    "theme" := JStr("dark"),
    "taskHistory" := JArr([]),
    "promptDrafts" := JObj(map[])
  ]

  /** The history keeps the newest this many entries. */
  const HISTORY_LIMIT: nat := 100

  /** `{ ...base, ...over }`: every key of either, the value from `over` where it has one. */
  function Spread(base: Config, over: Config): (r: Config)
    ensures r.Keys == base.Keys + over.Keys
    ensures forall k :: k in over ==> r[k] == over[k]
    ensures forall k :: k in base && k !in over ==> r[k] == base[k]
  {
    base + over
  }

  /** `DEFAULT_CONFIG` while the program runs, with `history` as the contents
      of its `taskHistory` array. A spread copies that array by reference, so
      the array is shared with every loaded config whose stored document has
      no `taskHistory` key, and what is `unshift`ed onto such a config's
      history lands in the default. */
  function Defaults(history: seq<Json>): Config {
    DEFAULT_CONFIG["taskHistory" := JArr(history)]
  }

  /** The document on disk once `ensureConfig` has run: the stored one, or the
      defaults as they stand, written when there is no file. */
  function StoredOrDefault(history: seq<Json>, file: Option<Config>): Config {
    file.GetOr(Defaults(history))
  }

  /** What `loadConfig` returns: defaults under the stored document. */
  function Loaded(history: seq<Json>, file: Option<Config>): (r: Config)
    ensures DEFAULT_CONFIG.Keys <= r.Keys
  {
    Spread(Defaults(history), StoredOrDefault(history, file))
  }

  /** Every default key is present after loading; a stored value wins and a
      missing key takes its default, a missing history the default history. */
  lemma LoadBackfillsDefaults(history: seq<Json>, stored: Config)
    ensures Loaded(history, Some(stored)).Keys == DEFAULT_CONFIG.Keys + stored.Keys
    ensures forall k :: k in stored ==> Loaded(history, Some(stored))[k] == stored[k]
    ensures forall k :: k in DEFAULT_CONFIG && k !in stored && k != "taskHistory" ==>
              Loaded(history, Some(stored))[k] == DEFAULT_CONFIG[k]
    ensures "taskHistory" !in stored ==> Loaded(history, Some(stored))["taskHistory"] == JArr(history)
  {
  }

  /** Loading a document that already holds every default key gives it back,
      whatever the default history holds. */
  lemma LoadOfComplete(history: seq<Json>, c: Config)
    requires DEFAULT_CONFIG.Keys <= c.Keys
    ensures Loaded(history, Some(c)) == c
  {
    assert Loaded(history, Some(c)).Keys == c.Keys;
  }

  /** A stored document with its own history loads the same whatever the
      default history holds. */
  lemma StoredHistoryIgnoresDefaults(h1: seq<Json>, h2: seq<Json>, stored: Config)
    requires "taskHistory" in stored
    ensures Loaded(h1, Some(stored)) == Loaded(h2, Some(stored))
  {
    assert Loaded(h1, Some(stored)).Keys == Loaded(h2, Some(stored)).Keys;
  }

  /** An update that sets the history saves the same document whatever the
      default history holds. */
  lemma HistoryUpdateIgnoresDefaults(h1: seq<Json>, h2: seq<Json>, file: Option<Config>, partial: Config)
    requires "taskHistory" in partial
    ensures Spread(Loaded(h1, file), partial) == Spread(Loaded(h2, file), partial)
  {
    assert Spread(Loaded(h1, file), partial).Keys == Spread(Loaded(h2, file), partial).Keys;
  }

  // ---- task history -------------------------------------------------------

  /** `config.taskHistory || []`. */
  function HistoryOf(c: Config): Json {
    OrElse(if "taskHistory" in c then Some(c["taskHistory"]) else None, JArr([]))
  }

  /** `[entry, ...history].slice(0, 100)`: the entry first, then the older
      entries in their order, cut to the limit. */
  function PushHistory(entry: Json, history: seq<Json>): (r: seq<Json>)
    ensures |r| == if |history| + 1 <= HISTORY_LIMIT then |history| + 1 else HISTORY_LIMIT
    ensures r[0] == entry
    ensures r[1..] == history[..|r| - 1]
  {
    var all := [entry] + history;
    var r := if |all| <= HISTORY_LIMIT then all else all[..HISTORY_LIMIT];
    assert r[1..] == all[1..|r|];
    assert all[1..] == history;
    r
  }

  function Reverse<T>(s: seq<T>): (r: seq<T>)
    ensures |r| == |s|
    ensures forall i :: 0 <= i < |s| ==> r[i] == s[|s| - 1 - i]
  {
    if s == [] then [] else [s[|s| - 1]] + Reverse(s[..|s| - 1])
  }

  /** The history after appending `entries` one by one, oldest first. */
  function PushAll(history: seq<Json>, entries: seq<Json>): seq<Json>
    decreases |entries|
  {
    if entries == [] then history
    else PushHistory(entries[|entries| - 1], PushAll(history, entries[..|entries| - 1]))
  }

  /** The first `HISTORY_LIMIT` entries of `s`. */
  function Newest(s: seq<Json>): (r: seq<Json>)
    ensures |r| == if |s| <= HISTORY_LIMIT then |s| else HISTORY_LIMIT
    ensures r == s[..|r|]
  {
    if |s| <= HISTORY_LIMIT then s else s[..HISTORY_LIMIT]
  }

  /** Pushing onto the cut history is cutting after the push. */
  lemma PushNewest(entry: Json, s: seq<Json>)
    ensures PushHistory(entry, Newest(s)) == Newest([entry] + s)
  {
    var h := Newest(s);
    var r := PushHistory(entry, h);
    var n := Newest([entry] + s);
    assert |r| == |n|;
    forall i | 0 <= i < |r| ensures r[i] == n[i] {
      if i > 0 {
        assert r[i] == r[1..][i - 1] == h[i - 1];
      }
    }
  }

  /** Appending records one at a time keeps the newest 100 of everything, newest
      first: after 150 appends to an empty history exactly the last 100 remain,
      the most recent at index 0. */
  lemma {:induction false} PushAllKeepsNewest(history: seq<Json>, entries: seq<Json>)
    requires |history| <= HISTORY_LIMIT
    ensures PushAll(history, entries) == Newest(Reverse(entries) + history)
    decreases |entries|
  {
    if entries == [] {
      assert Reverse(entries) + history == history;
    } else {
      var init := entries[..|entries| - 1];
      var last := entries[|entries| - 1];
      PushAllKeepsNewest(history, init);
      assert Reverse(entries) + history == [last] + (Reverse(init) + history);
      PushNewest(last, Reverse(init) + history);
    }
  }

  /** The history after `clearTaskHistory` reads back empty. */
  lemma ClearedHistoryIsEmpty(c: Config)
    ensures HistoryOf(Spread(c, map["taskHistory" := JArr([])])) == JArr([])
  {
  }

  // ---- prompt drafts ------------------------------------------------------

  /** `{ ...(config.promptDrafts || {}) }`, for an object-valued or falsy `promptDrafts`. */
  function DraftsOf(c: Config): map<string, Json> {
    if "promptDrafts" in c && c["promptDrafts"].JObj? then c["promptDrafts"].fields else map[]
  }

  /** `(config.promptDrafts || {})[workspacePath] || ''`. */
  function DraftOf(c: Config, workspacePath: string): (r: Json)
    ensures workspacePath in DraftsOf(c) && Truthy(DraftsOf(c)[workspacePath]) ==> r == DraftsOf(c)[workspacePath]
    ensures !(workspacePath in DraftsOf(c) && Truthy(DraftsOf(c)[workspacePath])) ==> r == JStr("")
  {
    var drafts := OrElse(if "promptDrafts" in c then Some(c["promptDrafts"]) else None, JObj(map[]));
    OrElse(Get(Some(drafts), workspacePath), JStr(""))
  }

  /** The partial that `savePromptDraft` hands to `updateConfig`. */
  function DraftUpdate(c: Config, workspacePath: string, prompt: string): Config {
    map["promptDrafts" := JObj(DraftsOf(c)[workspacePath := JStr(prompt)])]
  }

  /** After saving a draft, reading it back gives the saved text (the empty
      text reads back as ""), and every other path reads as before. */
  lemma SaveThenGetDraft(c: Config, workspacePath: string, prompt: string, other: string)
    requires other != workspacePath
    ensures DraftOf(Spread(c, DraftUpdate(c, workspacePath, prompt)), workspacePath) == JStr(prompt)
    ensures DraftOf(Spread(c, DraftUpdate(c, workspacePath, prompt)), other) == DraftOf(c, other)
  {
  }

  /** A path that was never saved reads as "", not as an error. */
  lemma UnknownDraftIsEmpty(c: Config, workspacePath: string)
    requires workspacePath !in DraftsOf(c)
    ensures DraftOf(c, workspacePath) == JStr("")
  {
  }
}
