/**
 * The workspace store (`useBuilderStore`): the generated project's files,
 * the terminal log, the preview settings and the build status. Each action
 * returns only the fields it changes, and zustand's `set` merges them into
 * the state, so every other field keeps its value.
 */
module BuilderStore {
  import opened Nullable
  import opened Seqs
  import opened Paths
  import opened JsMaps
  import opened FileTree

  datatype FileContent = FileContent(path: string, content: string, language: string)

  datatype OutputKind = Stdout | Stderr | Command

  /** A terminal line; `id` and `timestamp` come from `Math.random` and `new Date()` and are passed in. */
  datatype TerminalOutput = TerminalOutput(id: string, kind: OutputKind, content: string, timestamp: int)

  datatype Severity = Error | Warning | Info

  datatype BuildError = BuildError(id: string, file: string, line: int, column: int, message: string, severity: Severity)

  datatype DeviceFrame = Desktop | Tablet | Mobile

  datatype PreviewState = PreviewState(url: Option<string>, deviceFrame: DeviceFrame, isFullscreen: bool)

  /** The data fields of the store. */
  datatype BuilderState = BuilderState(
    files: JsMap<string, FileContent>,
    terminal: seq<TerminalOutput>,
    preview: PreviewState,
    activeFile: Option<string>,
    errors: seq<BuildError>,
    isBuilding: bool,
    buildProgress: int)

  /** `initialPreviewState`. */
  const InitialPreview: PreviewState := PreviewState(None, Desktop, false)

  /** The state the store is created with, and the one `reset` returns to. */
  const Initial: BuilderState := BuilderState(EmptyMap(), [], InitialPreview, None, [], false, 0)

  /** The file map is a well-formed `Map` and every file is stored under its own path. */
  predicate Consistent(s: BuilderState)
  {
    JsMaps.Valid(s.files) && forall p :: p in s.files.values ==> s.files.values[p].path == p
  }

  /** `addFile(file)`: the file is stored under its path, replacing an older one there. */
  function WithFile(s: BuilderState, file: FileContent): (r: BuilderState)
    requires Consistent(s)
    ensures Consistent(r)
    ensures Get(r.files, file.path) == Some(file)
    ensures forall p :: p != file.path ==> Get(r.files, p) == Get(s.files, p)
    ensures Size(r.files) == Size(s.files) + (if file.path in s.files.values then 0 else 1)
    ensures r == s.(files := r.files)
  {
    SetSize(s.files, file.path, file);
    s.(files := Set(s.files, file.path, file))
  }

  /**
   * `updateFile(path, content)`: a stored file gets the new content and keeps
   * its path and language; without a file at `path` nothing changes.
   */
  function WithUpdatedFile(s: BuilderState, path: string, content: string): (r: BuilderState)
    requires Consistent(s)
    ensures Consistent(r)
    ensures path !in s.files.values ==> r == s
    ensures path in s.files.values ==>
      && Get(r.files, path) == Some(FileContent(path, content, s.files.values[path].language))
      && r.files.order == s.files.order
    ensures forall p :: p != path ==> Get(r.files, p) == Get(s.files, p)
    ensures r == s.(files := r.files)
  {
    match Get(s.files, path)
    case None => s
    case Some(existing) => s.(files := Set(s.files, path, existing.(content := content)))
  }

  /** `deleteFile(path)`: the file is gone, and the selection is cleared if it was that file. */
  function WithoutFile(s: BuilderState, path: string): (r: BuilderState)
    requires Consistent(s)
    ensures Consistent(r)
    ensures Get(r.files, path) == None
    ensures forall p :: p != path ==> Get(r.files, p) == Get(s.files, p)
    ensures IsSubsequence(r.files.order, s.files.order)
    ensures r.activeFile == None <==> (s.activeFile == None || s.activeFile == Some(path))
    ensures r.activeFile.Some? ==> r.activeFile == s.activeFile
    ensures r == s.(files := r.files, activeFile := r.activeFile)
  {
    s.(files := Delete(s.files, path), activeFile := if s.activeFile == Some(path) then None else s.activeFile)
  }

  /** `addTerminalOutput(output)` with the generated `id` and `timestamp`. */
  function WithTerminalOutput(s: BuilderState, kind: OutputKind, content: string, id: string, timestamp: int): (r: BuilderState)
    ensures |r.terminal| == |s.terminal| + 1 && r.terminal[..|s.terminal|] == s.terminal
    ensures r.terminal[|s.terminal|] == TerminalOutput(id, kind, content, timestamp)
    ensures r == s.(terminal := r.terminal)
  {
    var t := s.terminal + [TerminalOutput(id, kind, content, timestamp)];
    assert t[..|s.terminal|] == s.terminal;
    s.(terminal := t)
  }

  /** `setBuildError(error)`: the error goes last; repeated errors are kept. */
  function WithBuildError(s: BuilderState, error: BuildError): (r: BuilderState)
    ensures |r.errors| == |s.errors| + 1 && r.errors[..|s.errors|] == s.errors && r.errors[|s.errors|] == error
    ensures r == s.(errors := r.errors)
  {
    var e := s.errors + [error];
    assert e[..|s.errors|] == s.errors;
    s.(errors := e)
  }

  /** The forest the file explorer shows for the current files. */
  function FileTreeOf(s: BuilderState): TreeState
  {
    TreeOf(s.files.order)
  }

  /** Paths held by the store that do not start with the separator. */
  predicate RootedFiles(s: BuilderState)
  {
    AllRooted(s.files.order)
  }

  /** After `addFile`, the file explorer has a node for the new file's path. */
  lemma AddedFileHasNode(s: BuilderState, file: FileContent)
    requires Consistent(s) && RootedFiles(s) && Rooted(file.path)
    ensures RootedFiles(WithFile(s, file))
    ensures file.path in FileTreeOf(WithFile(s, file)).pathMap
  {
    var r := WithFile(s, file);
    var o := r.files.order;
    assert forall i :: 0 <= i < |o| ==> o[i] in s.files.order || o[i] == file.path;
    KeysAreCovered(o);
    var i :| 0 <= i < |o| && o[i] == file.path;
  }

  /**
   * After `deleteFile(path)` the file explorer keeps a node for `path` only
   * when `path` is a directory above another stored file.
   */
  lemma DeletedFileLeavesTree(s: BuilderState, path: string)
    requires Consistent(s) && RootedFiles(s)
    ensures RootedFiles(WithoutFile(s, path))
    ensures path in FileTreeOf(WithoutFile(s, path)).pathMap <==>
      exists q :: q in WithoutFile(s, path).files.values && IsAncestor(path, q)
  {
    var r := WithoutFile(s, path);
    SubsequenceElements(r.files.order, s.files.order);
    AbsentKeyIsDirectory(r.files.order, r.files.values.Keys, path);
  }

  /** A path no file is stored under has a node exactly when it is a directory above a stored path. */
  lemma AbsentKeyIsDirectory(o: seq<string>, keys: set<string>, path: string)
    requires AllRooted(o) && path !in keys
    requires (forall i :: 0 <= i < |o| ==> o[i] in keys) && (forall k :: k in keys ==> k in o)
    ensures path in TreeOf(o).pathMap <==> exists q :: q in keys && IsAncestor(path, q)
  {
    KeysAreCovered(o);
    if path in TreeOf(o).pathMap {
      var i :| 0 <= i < |o| && (path == o[i] || IsAncestor(path, o[i]));
      assert o[i] in keys;
    }
    if exists q :: q in keys && IsAncestor(path, q) {
      var q :| q in keys && IsAncestor(path, q);
      var i :| 0 <= i < |o| && o[i] == q;
      assert Covered(path, o);
    }
  }

  /** The workspace store: one field per state key, each action an assignment of the fields it returns. */
  class Store {
    var files: JsMap<string, FileContent>
    var terminal: seq<TerminalOutput>
    var preview: PreviewState
    var activeFile: Option<string>
    var errors: seq<BuildError>
    var isBuilding: bool
    var buildProgress: int

    function State(): BuilderState
      reads this
    {
      BuilderState(files, terminal, preview, activeFile, errors, isBuilding, buildProgress)
    }

    ghost predicate Valid()
      reads this
    {
      Consistent(State())
    }

    constructor()
      ensures Valid() && State() == Initial
    {
      files := EmptyMap();
      terminal := [];
      preview := InitialPreview;
      activeFile := None;
      errors := [];
      isBuilding := false;
      buildProgress := 0;
    }

    method AddFile(file: FileContent)
      requires Valid()
      modifies this
      ensures Valid() && State() == WithFile(old(State()), file)
    {
      files := Set(files, file.path, file);
    }

    method UpdateFile(path: string, content: string)
      requires Valid()
      modifies this
      ensures Valid() && State() == WithUpdatedFile(old(State()), path, content)
    {
      var existing := Get(files, path);
      if existing.Some? {
        files := Set(files, path, existing.value.(content := content));
      }
    }

    method DeleteFile(path: string)
      requires Valid()
      modifies this
      ensures Valid() && State() == WithoutFile(old(State()), path)
    {
      files := Delete(files, path);
      activeFile := if activeFile == Some(path) then None else activeFile;
    }

    method SetActiveFile(path: Option<string>)
      modifies this
      ensures State() == old(State()).(activeFile := path)
    {
      activeFile := path;
    }

    method AddTerminalOutput(kind: OutputKind, content: string, id: string, timestamp: int)
      modifies this
      ensures State() == WithTerminalOutput(old(State()), kind, content, id, timestamp)
    {
      terminal := terminal + [TerminalOutput(id, kind, content, timestamp)];
    }

    method ClearTerminal()
      modifies this
      ensures State() == old(State()).(terminal := [])
    {
      terminal := [];
    }

    method SetPreviewUrl(url: Option<string>)
      modifies this
      ensures State() == old(State()).(preview := old(preview).(url := url))
    {
      preview := preview.(url := url);
    }

    method SetDeviceFrame(device: DeviceFrame)
      modifies this
      ensures State() == old(State()).(preview := old(preview).(deviceFrame := device))
    {
      preview := preview.(deviceFrame := device);
    }

    method ToggleFullscreen()
      modifies this
      ensures State() == old(State()).(preview := old(preview).(isFullscreen := !old(preview).isFullscreen))
    {
      preview := preview.(isFullscreen := !preview.isFullscreen);
    }

    method SetBuildError(error: BuildError)
      modifies this
      ensures State() == WithBuildError(old(State()), error)
    {
      errors := errors + [error];
    }

    method ClearErrors()
      modifies this
      ensures State() == old(State()).(errors := [])
    {
      errors := [];
    }

    method SetIsBuilding(building: bool)
      modifies this
      ensures State() == old(State()).(isBuilding := building)
    {
      isBuilding := building;
    }

    /** The progress is stored as given, without clamping. */
    method SetBuildProgress(progress: int)
      modifies this
      ensures State() == old(State()).(buildProgress := progress)
    {
      buildProgress := progress;
    }

    method Reset()
      modifies this
      ensures Valid() && State() == Initial
    {
      files := EmptyMap();
      terminal := [];
      preview := InitialPreview;
      activeFile := None;
      errors := [];
      isBuilding := false;
      buildProgress := 0;
    }
  }

  /**
   * Toggling fullscreen twice gives back the preview, whatever url, device
   * frame and fullscreen flag it had before.
   */
  method ToggleFullscreenTwice(url: Option<string>, device: DeviceFrame, fullscreen: bool)
    returns (before: PreviewState, after: PreviewState)
    ensures before == PreviewState(url, device, fullscreen)
    ensures after == before
  {
    var store := new Store();
    store.SetPreviewUrl(url);
    store.SetDeviceFrame(device);
    if fullscreen {
      store.ToggleFullscreen();
    }
    before := store.preview;
    store.ToggleFullscreen();
    store.ToggleFullscreen();
    after := store.preview;
  }

  /**
   * Selecting a file and then deleting it leaves nothing selected, and
   * resetting afterwards empties the store whatever came before.
   */
  method SelectDeleteReset(file: FileContent, kind: OutputKind, line: string)
    returns (selectedAfterDelete: Option<string>, sizeAfterDelete: nat, terminalAfterReset: nat)
    ensures selectedAfterDelete == None && sizeAfterDelete == 0 && terminalAfterReset == 0
  {
    var store := new Store();
    store.AddFile(file);
    store.SetActiveFile(Some(file.path));
    store.AddTerminalOutput(kind, line, "id", 0);
    store.DeleteFile(file.path);
    selectedAfterDelete := store.activeFile;
    DeleteSize(WithFile(Initial, file).files, file.path);
    sizeAfterDelete := Size(store.files);
    store.Reset();
    terminalAfterReset := |store.terminal|;
  }
}
