/** Putting an agent root back after an isolated run. Models `ConfigRestore` of
    crates/gaviero-cli/src/state.rs over a file system that is a map from paths to nodes;
    paths are relative to the run root. */
module ConfigRestore {
  import opened Json

  type Path = seq<string>

  datatype Node = File(bytes: string) | Dir

  type Tree = map<Path, Node>

  const SYNTHESIZED_FILES: seq<Path> := [
    [".mcp.json"], [".claude", "settings.json"], [".cursor", "mcp.json"], [".cursor", "cli.json"],
    [".codex", "config.toml"], [".codex", "rules", "gaviero.rules"], [".codex", "agents", "gaviero-worker.toml"],
    [".gaviero", "mcp-endpoint.json"], [".gaviero", "managed-permissions.json"]]

  /** Deepest first. */
  const SYNTHESIZED_DIRS: seq<Path> := [
    [".codex", "rules"], [".codex", "agents"], [".codex"], [".cursor"], [".claude"]]

  // ---------------------------------------------------------------------------
  // The file system

  predicate Above(d: Path, p: Path) {
    |d| < |p| && d == p[..|d|]
  }

  function At(t: Tree, p: Path): Option<Node> {
    if p in t then Some(t[p]) else None
  }

  /** Every node but the root, which is not in the map, lies in a directory. */
  ghost predicate WellFormed(t: Tree) {
    forall p :: p in t ==> p != [] && (|p| > 1 ==> At(t, p[..|p| - 1]) == Some(Dir))
  }

  /** Some directory on the way to `p` is a file. */
  predicate Blocked(t: Tree, p: Path) {
    exists i :: 0 < i < |p| && IsFile(t, p[..i])
  }

  predicate IsFile(t: Tree, p: Path) {
    p in t && t[p].File?
  }

  predicate IsDir(t: Tree, p: Path) {
    p in t && t[p].Dir?
  }

  datatype IoError = NotFound | NotADirectory | IsADirectory

  datatype Result<T> = Ok(value: T) | Err(error: IoError)

  /** `std::fs::read`. */
  function Read(t: Tree, p: Path): Result<string> {
    if Blocked(t, p) then Err(NotADirectory)
    else if p !in t then Err(NotFound)
    else if t[p].Dir? then Err(IsADirectory)
    else Ok(t[p].bytes)
  }

  /** The tree with every missing directory on the way to `p` made. */
  function WithParents(t: Tree, p: Path): (made: Tree)
    ensures forall q :: At(made, q) == if q !in t && 0 < |q| && Above(q, p) then Some(Dir) else At(t, q)
  {
    t + map i | 0 < i < |p| && p[..i] !in t :: p[..i] := Dir
  }

  /** `create_dir_all` of the parent, then `write`. */
  function WriteBack(t: Tree, p: Path, bytes: string): (Tree, bool) {
    if Blocked(t, p) then (t, false)
    else if IsDir(t, p) then (WithParents(t, p), false)
    else (WithParents(t, p)[p := File(bytes)], true)
  }

  /** `remove_file`; a missing file is no error. */
  function RemoveFile(t: Tree, p: Path): (Tree, bool) {
    if Blocked(t, p) || IsDir(t, p) then (t, false)
    else (t - {p}, true)
  }

  predicate IsEmptyDir(t: Tree, d: Path) {
    IsDir(t, d) && forall p :: p in t ==> !Above(d, p)
  }

  /** `remove_dir`, whose refusal is ignored. */
  function RemoveDir(t: Tree, d: Path): Tree {
    if IsEmptyDir(t, d) then t - {d} else t
  }

  // ---------------------------------------------------------------------------
  // Capture and restore

  datatype Saved = Saved(path: Path, previous: Option<string>)

  predicate Readable(t: Tree, p: Path) {
    !Blocked(t, p) && !IsDir(t, p)
  }

  function Previous(t: Tree, p: Path): Option<string> {
    if IsFile(t, p) then Some(t[p].bytes) else None
  }

  function Snapshot(t: Tree, names: seq<Path>): (saved: seq<Saved>)
    ensures |saved| == |names|
    ensures forall i :: 0 <= i < |names| ==> saved[i] == Saved(names[i], Previous(t, names[i]))
  {
    seq(|names|, i requires 0 <= i < |names| => Saved(names[i], Previous(t, names[i])))
  }

  /** The directories of the list that are not there, in list order. */
  function Absent(t: Tree, dirs: seq<Path>): seq<Path> {
    if dirs == [] then []
    else Absent(t, dirs[..|dirs| - 1]) + if dirs[|dirs| - 1] in t then [] else [dirs[|dirs| - 1]]
  }

  function RestoreFile(t: Tree, s: Saved): (Tree, bool) {
    match s.previous
    case Some(bytes) => if Read(t, s.path) == Ok(bytes) then (t, true) else WriteBack(t, s.path, bytes)
    case None => RemoveFile(t, s.path)
  }

  function RestoreFiles(t: Tree, files: seq<Saved>): Tree {
    if files == [] then t else RestoreFile(RestoreFiles(t, files[..|files| - 1]), files[|files| - 1]).0
  }

  /** The paths that could not be restored. */
  function Failures(t: Tree, files: seq<Saved>): seq<Path> {
    if files == [] then []
    else
      var init, last := files[..|files| - 1], files[|files| - 1];
      Failures(t, init) + if RestoreFile(RestoreFiles(t, init), last).1 then [] else [last.path]
  }

  function RemoveDirs(t: Tree, dirs: seq<Path>): Tree {
    if dirs == [] then t else RemoveDir(RemoveDirs(t, dirs[..|dirs| - 1]), dirs[|dirs| - 1])
  }

  function Restored(t: Tree, files: seq<Saved>, dirs: seq<Path>): Tree {
    RemoveDirs(RestoreFiles(t, files), dirs)
  }

  lemma RestoresNothing(t: Tree, files: seq<Saved>, dirs: seq<Path>)
    ensures RestoreFiles(t, files[..0]) == t && Failures(t, files[..0]) == [] && RemoveDirs(t, dirs[..0]) == t
  {
  }

  lemma RestoresOneMore(t: Tree, files: seq<Saved>, i: nat)
    requires i < |files|
    ensures var outcome := RestoreFile(RestoreFiles(t, files[..i]), files[i]);
            && RestoreFiles(t, files[..i + 1]) == outcome.0
            && Failures(t, files[..i + 1]) == Failures(t, files[..i]) + if outcome.1 then [] else [files[i].path]
  {
    hide RestoreFile;
    assert files[..i + 1][..i] == files[..i];
  }

  lemma RemovesOneMore(t: Tree, dirs: seq<Path>, i: nat)
    requires i < |dirs|
    ensures RemoveDirs(t, dirs[..i + 1]) == RemoveDir(RemoveDirs(t, dirs[..i]), dirs[i])
  {
    hide RemoveDir;
    assert dirs[..i + 1][..i] == dirs[..i];
  }

  class FileSystem {
    var nodes: Tree

    constructor (nodes: Tree)
      ensures this.nodes == nodes
    {
      this.nodes := nodes;
    }
  }

  class ConfigRestore {
    var files: seq<Saved>
    var newDirs: seq<Path>
    var restored: bool

    constructor (files: seq<Saved>, newDirs: seq<Path>)
      ensures this.files == files && this.newDirs == newDirs && !restored
    {
      this.files := files;
      this.newDirs := newDirs;
      restored := false;
    }

    /** Reads every file; a read that fails for another reason than absence fails the capture. */
    static method Capture(fs: FileSystem) returns (r: Result<ConfigRestore>)
      ensures r.Ok? <==> forall i :: 0 <= i < |SYNTHESIZED_FILES| ==> Readable(fs.nodes, SYNTHESIZED_FILES[i])
      ensures r.Ok? ==>
        && fresh(r.value) && !r.value.restored
        && r.value.files == Snapshot(fs.nodes, SYNTHESIZED_FILES)
        && r.value.newDirs == Absent(fs.nodes, SYNTHESIZED_DIRS)
    {
      var files: seq<Saved> := [];
      for i := 0 to |SYNTHESIZED_FILES|
        invariant forall j :: 0 <= j < i ==> Readable(fs.nodes, SYNTHESIZED_FILES[j])
        invariant files == Snapshot(fs.nodes, SYNTHESIZED_FILES[..i])
      {
        var path := SYNTHESIZED_FILES[i];
        match Read(fs.nodes, path) {
          case Ok(bytes) => files := files + [Saved(path, Some(bytes))];
          case Err(NotFound) => files := files + [Saved(path, None)];
          case Err(e) => return Err(e);
        }
      }
      assert SYNTHESIZED_FILES[..|SYNTHESIZED_FILES|] == SYNTHESIZED_FILES;
      var newDirs: seq<Path> := [];
      for i := 0 to |SYNTHESIZED_DIRS|
        invariant newDirs == Absent(fs.nodes, SYNTHESIZED_DIRS[..i])
      {
        assert SYNTHESIZED_DIRS[..i + 1][..i] == SYNTHESIZED_DIRS[..i];
        if SYNTHESIZED_DIRS[i] !in fs.nodes {
          newDirs := newDirs + [SYNTHESIZED_DIRS[i]];
        }
      }
      assert SYNTHESIZED_DIRS[..|SYNTHESIZED_DIRS|] == SYNTHESIZED_DIRS;
      var captured := new ConfigRestore(files, newDirs);
      r := Ok(captured);
    }

    /** The first call restores; every later call does nothing. */
    method Restore(fs: FileSystem) returns (errors: seq<Path>)
      modifies this`restored, fs
      ensures restored
      ensures old(restored) ==> fs.nodes == old(fs.nodes) && errors == []
      ensures !old(restored) ==> fs.nodes == Restored(old(fs.nodes), files, newDirs)
      ensures !old(restored) ==> errors == Failures(old(fs.nodes), files)
    {
      if restored {
        return [];
      }
      hide RestoreFiles, Failures, RemoveDirs, RemoveDir, WriteBack, RemoveFile, Read;
      restored := true;
      errors := [];
      ghost var t0 := fs.nodes;
      RestoresNothing(t0, files, []);
      for i := 0 to |files|
        invariant restored && files == old(files) && newDirs == old(newDirs)
        invariant fs.nodes == RestoreFiles(t0, files[..i])
        invariant errors == Failures(t0, files[..i])
      {
        var saved := files[i];
        RestoresOneMore(t0, files, i);
        var outcome: (Tree, bool);
        match saved.previous {
          case Some(bytes) =>
            var present := Read(fs.nodes, saved.path);
            outcome := if present == Ok(bytes) then (fs.nodes, true) else WriteBack(fs.nodes, saved.path, bytes);
          case None =>
            outcome := RemoveFile(fs.nodes, saved.path);
        }
        fs.nodes := outcome.0;
        if !outcome.1 {
          errors := errors + [saved.path];
        }
      }
      assert files[..|files|] == files;
      ghost var t1 := fs.nodes;
      RestoresNothing(t1, [], newDirs);
      for i := 0 to |newDirs|
        invariant restored && files == old(files) && newDirs == old(newDirs)
        invariant fs.nodes == RemoveDirs(t1, newDirs[..i])
      {
        RemovesOneMore(t1, newDirs, i);
        fs.nodes := RemoveDir(fs.nodes, newDirs[i]);
      }
      assert newDirs[..|newDirs|] == newDirs;
    }
  }
}
