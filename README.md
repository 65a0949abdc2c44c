# Nexus workspace state, modelled in Dafny

Nexus is an AI app builder. The browser keeps the whole workspace in memory,
in five zustand stores:

- the workspace store: generated files, terminal log, live preview and build status;
- the conversation store: chat messages, agent status and token counter;
- the project registry, with its filtered dashboard view;
- the account store: user, credits and preferences;
- the interface store: theme, panels and notifications.

The file explorer turns the flat file map into a directory forest with
`buildFileTree`, and a small utility module supplies text helpers.

This project models that core and proves what it promises.

- **Stores.** Each store is a class with one field per state key and one
  method per action. Zustand's `set` shallow-merges what an action returns, so
  each method states its whole new state in terms of the old:
  `State() == old(State()).(field := …)`. Each new field value is a pure
  function of the old state, and the store's properties are proved about those
  functions.
- **JavaScript built-ins.** They are modelled exactly where the behaviour
  depends on them:
  - `Map` keeps insertion order (`JsMaps`);
  - `Array.prototype.filter` (`Seqs`);
  - `split('/')` and `join('/')` (`Paths`);
  - `slice` with negative and clamped indices, `lastIndexOf`, `>>> 0`,
    `includes`, ASCII `toLowerCase`, and number-to-string (`JsStrings`).
- **`buildFileTree`.** It links node objects by reference. Here the nodes live
  in a heap, a sequence of `FileNode`, and a reference is an index into it.
  The method `BuildFileTree` keeps the source's two nested loops and is proved
  equal to the fold `TreeOf`. The tree properties are lemmas about `TreeOf`.
- **Paths.** A path is *rooted* when it does not start with `/`. Path `a` is an
  *ancestor* of `b` when `b` starts with `a` followed by `/`.
- **Time and randomness.** Ids and timestamps, which the source draws from
  `Math.random()` and `new Date()`, are parameters. Dates are integer
  milliseconds.

## Model

| member | source | states |
|---|---|---|
| `JsMaps.Set` | lib/store/builderStore.ts:82-83 | `Map.set` on a copy: the key maps to the value and every other key keeps its value. A present key keeps its place in the order; a new key goes last. The map stays duplicate-free. |
| `JsMaps.Delete` | lib/store/builderStore.ts:97-98 | `Map.delete` on a copy: the key has no value, every other key keeps its value, and the order is a subsequence of the old one. |
| `JsMaps.SetSize` | lib/store/builderStore.ts:81-85 | Setting a key grows the map by one exactly when the key is new, so a path is never listed twice. |
| `JsMaps.SetIdempotent` | lib/store/builderStore.ts:81-85 | Setting the same entry twice equals setting it once. |
| `JsMaps.DeleteSize` | lib/store/builderStore.ts:96-103 | Deleting a present key shrinks the map by exactly one. Deleting an absent key leaves it equal. |
| `JsMaps.DeleteUndoesSet` | lib/store/builderStore.ts:81-103 | Deleting a key that was just added restores the map. |
| `BuilderStore.WithFile` | lib/store/builderStore.ts:81-85 | After `addFile(f)`: `f` is under its path, and every other path keeps its file. Size grows by one only for a new path. Nothing but `files` changes. |
| `BuilderStore.WithUpdatedFile` | lib/store/builderStore.ts:87-94 | An absent path leaves the state unchanged. A present file gets the new content, keeps its path, language and position, and no other file changes. |
| `BuilderStore.WithoutFile` | lib/store/builderStore.ts:96-103 | The path's file is gone and the others are kept in order. `activeFile` becomes null exactly when it was null or that path; otherwise it is kept. |
| `BuilderStore.WithTerminalOutput` | lib/store/builderStore.ts:108-117 | Exactly one entry is appended. The old log is its prefix, and the entry is the one built from the given id, type, content and timestamp. |
| `BuilderStore.WithBuildError` | lib/store/builderStore.ts:135-137 | The error is appended, duplicates included, and the old list is a prefix. |
| `BuilderStore.AddedFileHasNode` | components/builder/FileExplorer.tsx:20-36 | After `addFile` with a rooted path, the explorer's `pathMap` has a node for that path. |
| `BuilderStore.DeletedFileLeavesTree` | components/builder/FileExplorer.tsx:20-36 | After `deleteFile(p)`, the explorer has a node for `p` exactly when `p` is an ancestor of another stored file. |
| `BuilderStore.Store.constructor` | lib/store/builderStore.ts:65-78 | The initial state: empty files, log and errors; no active file; not building; progress 0; the initial preview. |
| `BuilderStore.Store.AddFile` | lib/store/builderStore.ts:81-85 | The new state is `WithFile` of the old one, and every file stays stored under its own path. |
| `BuilderStore.Store.UpdateFile` | lib/store/builderStore.ts:87-94 | The new state is `WithUpdatedFile` of the old one. |
| `BuilderStore.Store.DeleteFile` | lib/store/builderStore.ts:96-103 | The new state is `WithoutFile` of the old one. |
| `BuilderStore.Store.SetActiveFile` | lib/store/builderStore.ts:105 | Only `activeFile` changes, to the argument. |
| `BuilderStore.Store.AddTerminalOutput` | lib/store/builderStore.ts:108-117 | The new state is `WithTerminalOutput` of the old one. |
| `BuilderStore.Store.ClearTerminal` | lib/store/builderStore.ts:119 | The log is emptied and nothing else changes. |
| `BuilderStore.Store.SetPreviewUrl` | lib/store/builderStore.ts:122-124 | Only the preview's url changes. |
| `BuilderStore.Store.SetDeviceFrame` | lib/store/builderStore.ts:126-128 | Only the preview's device frame changes. |
| `BuilderStore.Store.ToggleFullscreen` | lib/store/builderStore.ts:130-132 | Only the preview's fullscreen flag flips. |
| `BuilderStore.ToggleFullscreenTwice` | lib/store/builderStore.ts:130-132 | From any preview state, toggling fullscreen twice gives back that state. |
| `BuilderStore.Store.SetBuildError` | lib/store/builderStore.ts:135-137 | The new state is `WithBuildError` of the old one. |
| `BuilderStore.Store.ClearErrors` | lib/store/builderStore.ts:139 | The error list is emptied and nothing else changes. |
| `BuilderStore.Store.SetIsBuilding` | lib/store/builderStore.ts:141 | Only `isBuilding` changes. |
| `BuilderStore.Store.SetBuildProgress` | lib/store/builderStore.ts:143 | `buildProgress` takes the argument verbatim, with no clamping. |
| `BuilderStore.Store.Reset` | lib/store/builderStore.ts:146-154 | From any state, the store returns to the initial state. |
| `BuilderStore.SelectDeleteReset` | lib/store/builderStore.ts:96-154 | A fresh store: add a file, select it, log a line, then delete the file. Nothing is selected and no file is left. A reset then empties the log. |
| `Paths.JoinSplit` | components/builder/FileExplorer.tsx:21 | Joining the parts of `split('/')` gives the path back. |
| `Paths.SplitJoin` | components/builder/FileExplorer.tsx:41 | Splitting the join of slash-free parts gives the parts back. |
| `Paths.ParentPathPrefix` | components/builder/FileExplorer.tsx:41 | A parent path is a strict prefix of the path, directly followed by `/`. |
| `FileTree.TreeOf` | components/builder/FileExplorer.tsx:16-52 | The forest is well formed: `pathMap` maps exactly the node paths to their nodes; a node has children exactly when it is a directory; a name is the last segment of its path; and every reference is allocated. |
| `FileTree.BuildFileTree` | components/builder/FileExplorer.tsx:16-52 | The two nested loops build exactly `TreeOf(paths)`. An empty map gives an empty forest. |
| `FileTree.VisitPathParts` | components/builder/FileExplorer.tsx:21-48 | The inner loop over one path's parts yields `VisitPath` of the state before. |
| `FileTree.VisitPartStep` | components/builder/FileExplorer.tsx:26-46 | One step of the inner loop yields `VisitPart` of the state before. |
| `FileTree.NodesAreDistinctPrefixes` | components/builder/FileExplorer.tsx:28-36 | The node paths are the `currentPath` values of all paths, de-duplicated in order of first occurrence. No two nodes share a path. |
| `FileTree.KeysArePrefixes` | components/builder/FileExplorer.tsx:26-36 | `pathMap` has a key exactly for each `currentPath` value the loops reach. |
| `FileTree.KeysAreCovered` | components/builder/FileExplorer.tsx:20-36 | For rooted paths, `pathMap` has a key exactly for each path and each ancestor of a path. Every path has its own node. |
| `FileTree.RootsAreFirstSegments` | components/builder/FileExplorer.tsx:38-39 | The roots, in order, are the distinct first segments of the paths, each at its first occurrence. |
| `FileTree.TreeShape` | components/builder/FileExplorer.tsx:38-45 | The roots are exactly the one-segment nodes, in increasing order. A directory's children are exactly the nodes whose parent path is that directory, in order of first occurrence. Every node's parent path has a node. |
| `FileTree.FilesAreThePaths` | components/builder/FileExplorer.tsx:20-49 | With no path an ancestor of another, a node is a file exactly when its path is an input, and every input has a node. |
| `FileTree.AllReachable` | components/builder/FileExplorer.tsx:20-49 | With no path an ancestor of another, every node can be reached from the roots. |
| `FileTree.UnderFileIsDetached` | components/builder/FileExplorer.tsx:28-45 | First occurrence wins. A node whose parent path belongs to a file is no root, no one's child, and unreachable. |
| `AIStore.WithMessage` | lib/store/aiStore.ts:41-50 | Exactly one message is appended: the given role, content and streaming flag, stamped with the given id and timestamp. Earlier messages and the other fields are unchanged. |
| `AIStore.WithLastContent` | lib/store/aiStore.ts:52-61 | The length is kept. An empty list stays empty. Only the last message's content changes; its id, role, timestamp and streaming flag are kept. |
| `AIStore.StreamingKeepsHistory` | lib/store/aiStore.ts:52-61 | Over any run of `updateLastMessage` calls, the count is unchanged and earlier messages are unchanged. The last message keeps its id and role and ends with the final chunk. |
| `AIStore.TokensNeverDecrease` | lib/store/aiStore.ts:69-71 | With non-negative increments, the token counter never decreases at any point of a sequence of `addTokensUsed` calls. |
| `AIStore.Store.constructor` | lib/store/aiStore.ts:34-39 | The initial state: no messages, no agent, empty pipeline, not streaming, zero tokens. |
| `AIStore.Store.AddMessage` | lib/store/aiStore.ts:41-50 | The new state is `WithMessage` of the old one. |
| `AIStore.Store.UpdateLastMessage` | lib/store/aiStore.ts:52-61 | Only `messages` changes, to `WithLastContent` of the old list. |
| `AIStore.Store.SetStreaming` | lib/store/aiStore.ts:63 | Only `isStreaming` changes. |
| `AIStore.Store.SetCurrentAgent` | lib/store/aiStore.ts:65 | Only `currentAgent` changes, replaced wholesale. |
| `AIStore.Store.UpdateAgentPipeline` | lib/store/aiStore.ts:67 | Only `agentPipeline` changes, replaced wholesale. |
| `AIStore.Store.AddTokensUsed` | lib/store/aiStore.ts:69-71 | `tokensUsed` grows by the argument and nothing else changes. |
| `AIStore.Store.ClearConversation` | lib/store/aiStore.ts:73-79 | All five fields return to the initial state together. |
| `AIStore.StreamReply` | lib/store/aiStore.ts:41-61 | A question, an empty reply and one update per chunk give two messages. The question is intact and the reply holds the last chunk. |
| `ProjectStore.StatusName` | lib/store/projectStore.ts:17 | Each status has one of the four status strings. |
| `ProjectStore.StatusNameInjective` | lib/store/projectStore.ts:17 | Distinct statuses have distinct strings. |
| `ProjectStore.Merge` | lib/store/projectStore.ts:59 | For each of the ten patchable fields, a key present in the patch replaces the project's value and an absent key keeps it. `updatedAt` is the fresh time even when the patch has one. |
| `ProjectStore.MergeEmpty` | lib/store/projectStore.ts:59 | An empty patch changes only `updatedAt`. |
| `ProjectStore.MergeOverlay` | lib/store/projectStore.ts:59 | Two updates in a row equal one update with the later keys winning, stamped with the later time. |
| `ProjectStore.MergeTwice` | lib/store/projectStore.ts:59 | Repeating an update changes only the timestamp. |
| `ProjectStore.UpdateMatching` | lib/store/projectStore.ts:57-60 | Length and order are kept. Projects with the id are merged; all others are unchanged. |
| `ProjectStore.UpdateAbsentId` | lib/store/projectStore.ts:57-60 | Updating an id no project has leaves the list unchanged. |
| `ProjectStore.UpdateKeepsIds` | lib/store/projectStore.ts:57-60 | A patch without `id` keeps every project's id. |
| `ProjectStore.ActiveAfterUpdate` | lib/store/projectStore.ts:61-64 | The active project gets the same merge exactly when its id matches; otherwise it is unchanged. |
| `ProjectStore.DeployUpdatesBoth` | lib/store/projectStore.ts:57-64 | Updating a listed, active project with `{status: 'deployed'}` makes both the list entry and the active project that project with status deployed and a later `updatedAt`. |
| `ProjectStore.ActiveStaysInSync` | lib/store/projectStore.ts:57-64 | An active project that is a list entry equals that entry after the update. |
| `ProjectStore.RemoveById` | lib/store/projectStore.ts:68 | The result is a subsequence in which no project has the id. A project with another id keeps every copy it had, and one with the id keeps none. |
| `ProjectStore.RemoveAbsentId` | lib/store/projectStore.ts:68 | Deleting an id no project has leaves the list unchanged. |
| `ProjectStore.ActiveAfterDelete` | lib/store/projectStore.ts:69 | The active project is cleared exactly when it has the id; otherwise it is kept. |
| `ProjectStore.FilteredProjects` | lib/store/projectStore.ts:78-93 | The result is a subsequence of the projects, in order. A project satisfying both the search and the status condition keeps every copy it had, and any other keeps none. |
| `ProjectStore.NoFilterShowsAll` | lib/store/projectStore.ts:82-89 | An empty query and a null filter show every project in registry order. |
| `ProjectStore.SearchIgnoresCase` | lib/store/projectStore.ts:82-84 | The search gives the same answer for a query and its lowercase form. |
| `ProjectStore.SearchIsSubstring` | lib/store/projectStore.ts:82-84 | A non-empty query matches exactly when its lowercase form occurs at some position of the lowercase name or description. |
| `ProjectStore.UnknownStatusShowsNothing` | lib/store/projectStore.ts:87-89 | A non-empty filter value that names no status shows no project. |
| `ProjectStore.Store.constructor` | lib/store/projectStore.ts:43-49 | The initial state: no projects, no active project, not loading, no error, empty query, no filter. |
| `ProjectStore.Store.SetProjects` | lib/store/projectStore.ts:51 | Replaces the list and clears `error`. |
| `ProjectStore.Store.AddProject` | lib/store/projectStore.ts:53-55 | The list becomes `[project] + old list`, newest first. |
| `ProjectStore.Store.UpdateProject` | lib/store/projectStore.ts:57-65 | The list becomes `UpdateMatching` and the active project `ActiveAfterUpdate`. |
| `ProjectStore.Store.DeleteProject` | lib/store/projectStore.ts:67-70 | The list becomes `RemoveById` and the active project `ActiveAfterDelete`. |
| `ProjectStore.Store.SetActiveProject` | lib/store/projectStore.ts:72 | Only `activeProject` changes. |
| `ProjectStore.Store.SetSearchQuery` | lib/store/projectStore.ts:74 | Only `searchQuery` changes. |
| `ProjectStore.Store.SetFilterStatus` | lib/store/projectStore.ts:76 | Only `filterStatus` changes. |
| `ProjectStore.Store.GetFilteredProjects` | lib/store/projectStore.ts:78-93 | The current view is a subsequence of the registry holding every copy of each project that matches both conditions, and nothing else. |
| `UserStore.UpdatedUser` | lib/store/userStore.ts:42-44 | With a user, the given keys are overlaid on it. Without a user, the result stays null. |
| `UserStore.MergeUserFields` | lib/store/userStore.ts:42-44 | For each of the eight user fields, a given key replaces the user's value and an absent one keeps it. An `avatar` key holding `undefined` is copied over. An empty patch changes nothing. Applying a patch twice equals applying it once. |
| `UserStore.UpdatedPreferences` | lib/store/userStore.ts:46-50 | Only the given preference keys change. Other preferences and all other user fields are kept. No user stays no user. |
| `UserStore.PreferencesCompose` | lib/store/userStore.ts:46-50 | Two preference updates equal one whose later keys win. |
| `UserStore.Deducted` | lib/store/userStore.ts:54 | `Math.max(0, credits - amount)`: never negative, and exactly the difference when that is not negative. |
| `UserStore.DeductedUser` | lib/store/userStore.ts:52-56 | Only the credits change, and they end at zero or above. No user stays no user. |
| `UserStore.DeductTwice` | lib/store/userStore.ts:52-56 | Two deductions, the second non-negative, equal one deduction of the total. |
| `UserStore.DeductBounds` | lib/store/userStore.ts:52-56 | A non-negative deduction never raises the balance (taken as 0 when negative). It leaves exactly the difference when it is at most the balance. |
| `UserStore.Store.constructor` | lib/store/userStore.ts:36-38 | The initial state: no user, not loading, no error. |
| `UserStore.Store.SetUser` | lib/store/userStore.ts:40 | Sets the user and clears `error`. |
| `UserStore.Store.UpdateUser` | lib/store/userStore.ts:42-44 | The user becomes `UpdatedUser` of the old one. |
| `UserStore.Store.UpdatePreferences` | lib/store/userStore.ts:46-50 | The user becomes `UpdatedPreferences` of the old one. |
| `UserStore.Store.DeductCredits` | lib/store/userStore.ts:52-56 | The user becomes `DeductedUser` of the old one. |
| `UserStore.Store.ClearUser` | lib/store/userStore.ts:58 | Sets both `user` and `error` to null. |
| `UIStore.Toggled` | lib/store/uiStore.ts:54-56 | Toggling always changes the theme. |
| `UIStore.ToggleTwice` | lib/store/uiStore.ts:54-56 | Toggling the theme twice is the identity. |
| `UIStore.WithNotification` | lib/store/uiStore.ts:66-71 | Exactly one notification, with the given fields and id, is appended. The old list is its prefix. |
| `UIStore.WithoutNotification` | lib/store/uiStore.ts:73-75 | Every notification with the id is removed. The rest keep their order and every copy they had. |
| `UIStore.RemoveUndoesAdd` | lib/store/uiStore.ts:66-75 | Removing the fresh id of a notification just added restores the list. |
| `UIStore.WithPanel` | lib/store/uiStore.ts:84-89 | The panel takes the value and the other three are unchanged. |
| `UIStore.PanelToggled` | lib/store/uiStore.ts:77-82 | Only the given panel flips. |
| `UIStore.ToggleLaws` | lib/store/uiStore.ts:76-88 | Toggling a panel twice restores it, toggles of two panels commute, and setting a panel to its current value changes nothing. |
| `UIStore.Store.constructor` | lib/store/uiStore.ts:40-50 | The store starts in `Initial`: dark theme, open sidebar, closed palette, no modal, no notifications, every panel visible. |
| `UIStore.Store.SetTheme` | lib/store/uiStore.ts:52 | Only the theme changes. |
| `UIStore.Store.ToggleTheme` | lib/store/uiStore.ts:54-56 | Only the theme changes, to the other theme. |
| `UIStore.Store.SetSidebarOpen` | lib/store/uiStore.ts:58 | Only `isSidebarOpen` changes. |
| `UIStore.Store.SetCommandPaletteOpen` | lib/store/uiStore.ts:60 | Only `isCommandPaletteOpen` changes. |
| `UIStore.Store.OpenModal` | lib/store/uiStore.ts:62 | `activeModal` becomes the given id. |
| `UIStore.Store.CloseModal` | lib/store/uiStore.ts:64 | `activeModal` becomes null. |
| `UIStore.Store.AddNotification` | lib/store/uiStore.ts:66-71 | The list becomes `WithNotification` of the old one. |
| `UIStore.Store.RemoveNotification` | lib/store/uiStore.ts:73-75 | The list becomes `WithoutNotification` of the old one. |
| `UIStore.Store.TogglePanel` | lib/store/uiStore.ts:77-82 | The visibility becomes `PanelToggled` of the old one. |
| `UIStore.Store.SetPanelVisibility` | lib/store/uiStore.ts:84-89 | The visibility becomes `WithPanel` of the old one. |
| `JsStrings.Slice` | lib/utils.ts:33 | `slice(start, end)` with negative indices counted from the end and clamped to the string. |
| `JsStrings.LastIndexOf` | lib/utils.ts:105 | The last position of the character, or -1 exactly when it does not occur. |
| `JsStrings.ToUint32` | lib/utils.ts:105 | `>>> 0`: the value modulo 2^32. Negative values down to -2^32 wrap to `x + 2^32`. |
| `JsStrings.IncludesIsWindow` | lib/store/projectStore.ts:83-84 | `includes` holds exactly when the needle occurs at some position. |
| `JsStrings.LowerIdempotent` | lib/store/projectStore.ts:83-84 | Lowering twice equals lowering once. |
| `JsStrings.ParseNatToString` | lib/utils.ts:21-23 | The decimal text of a count reads back as that count. |
| `Utils.Truncate` | lib/utils.ts:31-34 | Text that fits is returned unchanged. Otherwise the result is the first `length` characters plus `...`, of length `length + 3`. Negative lengths cut from the end. |
| `Utils.ExtensionHasNoDot` | lib/utils.ts:104-106 | The extension is a suffix of the name and contains no dot. |
| `Utils.ExtensionSpec` | lib/utils.ts:104-106 | The extension is empty when there is no dot or the only dot comes first. Otherwise it is the text after the last dot, and the name is the part before that dot, the dot, then the extension. |
| `Utils.ExtensionOfDotted` | lib/utils.ts:104-106 | `base.ext`, with a non-empty base and a dot-free `ext`, has extension `ext`. |
| `Utils.NoExtension` | lib/utils.ts:104-106 | A dot-free name, and the same name after a leading dot, have no extension. |
| `Utils.LanguageOf` | lib/utils.ts:111-132 | A listed extension gives its table language; any other gives `plaintext`. |
| `Utils.TsxIsTypeScript` | lib/utils.ts:114-116 | A `.tsx` file is typescript. |
| `Utils.TsIsTypeScript` | lib/utils.ts:114-115 | A `.ts` file is typescript. |
| `Utils.YmlIsYaml` | lib/utils.ts:127-128 | A `.yml` file is yaml. |
| `Utils.YamlIsYaml` | lib/utils.ts:127-128 | A `.yaml` file is yaml. |
| `Utils.LanguageIsCaseSensitive` | lib/utils.ts:111-131 | An upper-case extension is not listed and gives `plaintext`. |
| `Utils.LanguageWithoutExtension` | lib/utils.ts:111-131 | A name without an extension gives `plaintext`. |
| `Utils.LanguageOfAsWritten` | lib/utils.ts:131 | The lookup as written: a key inherited from `Object.prototype` yields that inherited member. |
| `Utils.InheritedKeyLeaks` | lib/utils.ts:131 | `notes.constructor` gets an inherited function as written, but `plaintext` as intended. |
| `Utils.AsWrittenAgrees` | lib/utils.ts:131 | Apart from inherited keys, the lookup as written and as intended agree. |
| `Utils.ElapsedSeconds` | lib/utils.ts:18 | The elapsed seconds are the floor of the millisecond difference divided by 1000. |
| `Utils.Classify` | lib/utils.ts:20-25 | Each label is chosen exactly on its interval: just now below 60 s, then minutes 1-59, hours 1-23, days 1-6, then the date. Each count is the floor of the elapsed time in its unit. |
| `Utils.ClassifyMonotone` | lib/utils.ts:20-25 | An older date never gets a label that stands for less time. |
| `Utils.LabelNumber` | lib/utils.ts:21-23 | The number in an `m`/`h`/`d ago` label reads back as the count it was made from. |

## Left out

**Not modelled at all**
- Rendering (the React components and JSX), the zustand subscriber mechanism, and the `persist` middleware that writes two stores to `localStorage`.
- `cn`, `formatFileSize`, `debounce`, `sleep`, `copyToClipboard`, `isBrowser`: class merging, floating point, timers and the clipboard.
- `generateId`, and the random ids and `new Date()` timestamps of the stores: they are parameters.
- `toLocaleDateString` in `formatRelativeTime`: locale-dependent. The label is `AsDate`.
- Invalid dates (NaN arithmetic): not modelled.
- Fractional numbers, `NaN` and `Infinity` anywhere: JavaScript numbers are modelled as unbounded integers. `buildProgress`, `credits`, `tokensUsed`, `truncate`'s `length` and the amounts are therefore whole numbers.
- Unicode case mapping: `toLowerCase` is modelled for ASCII letters only.
- UTF-16 code units: strings are sequences of characters.
- `UserStore.Store`: a `Partial<User>` key that is present with the value `undefined` is modelled only for the optional field `avatar`. For required fields, such a key would erase the field and is not modelled.
- `ProjectStore.Merge`: a `ProjectPatch` key that is present with the value `undefined` is modelled only for the optional fields `deploymentUrl` and `githubUrl`. For required fields, such a key would erase the field and is not modelled.
- `ProjectStore.Store.UpdateProject`, `ProjectStore.ActiveStaysInSync`, `ProjectStore.DeployUpdatesBoth`: the source calls `new Date()` once per merged object. The model uses one `now` for all of them, so two matches stamped a millisecond apart are not modelled. In the source, the active project and its list entry therefore agree on every field except possibly `updatedAt`.

**Simplified representations**
- `BuildFileTree`: the node objects are a heap indexed by position. Sharing is preserved, but JavaScript object identity and later mutation of a returned node through another reference are not modelled.
- `BuildFileTree`: the Map's values are ignored by the source, so the model takes only the keys, in insertion order.
- `FileTree.TreeShape`, `FileTree.KeysAreCovered`, `FileTree.RootsAreFirstSegments`, `FileTree.AllReachable`, `FileTree.UnderFileIsDetached`, `BuilderStore.AddedFileHasNode`, `BuilderStore.DeletedFileLeavesTree`: stated only for paths that do not start with `/`.
  - A leading `/` makes the empty first segment skip into `currentPath`. For example, `/a` creates a root `""` and a node `a` whose parent lookup uses `""`.
  - The facts that hold for every input still apply without that restriction: no duplicate node, name is the last segment, the node paths are the de-duplicated prefixes, and `BuildFileTree == TreeOf`.
- `FileTree.FilesAreThePaths`, `FileTree.AllReachable`: stated only when no path is an ancestor of another. `UnderFileIsDetached` states what happens otherwise.

**Weaker contracts**
- `Utils.ExtensionSpec`, `Utils.ExtensionHasNoDot`: assume names of at most 2^32 characters. For longer strings `>>> 0` wraps and the slice can start before the last dot. JavaScript engines cap string length far below that.

## Findings

| source | as written | input that shows it | evidently intended | confidence | as-written member | corrected member |
|---|---|---|---|---|---|---|
| lib/utils.ts:114-131 | `languageMap[ext] \|\| 'plaintext'` reads a plain object literal, so keys inherited from `Object.prototype` are found, and their values are truthy functions. | `getLanguageFromFilename("notes.constructor")` returns the `Object` constructor function, not a string. | Every extension not in the table maps to `'plaintext'` (own-key lookup). | not executed | `Utils.LanguageOfAsWritten` (counterexample `Utils.InheritedKeyLeaks`) | `Utils.LanguageOf` (agreement `Utils.AsWrittenAgrees`) |
