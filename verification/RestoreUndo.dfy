/** What `ConfigRestore` of crates/gaviero-cli/src/state.rs undoes: exactly the runs that change
    nothing but the snapshotted files and add only listed directories. */
module RestoreUndo {
  import opened Json
  import opened ConfigRestore
  import opened Selection

  predicate DeepestFirst(dirs: seq<Path>) {
    forall i, j :: 0 <= i < j < |dirs| ==> !Above(dirs[i], dirs[j])
  }

  predicate NoneAbove(p: Path, names: seq<Path>) {
    forall i :: 0 <= i < |names| ==> !Above(p, names[i])
  }

  /** What the two lists have to be. */
  ghost predicate Layout(names: seq<Path>, dirs: seq<Path>) {
    && DeepestFirst(dirs)
    && (forall i :: 0 <= i < |names| ==> names[i] != [] && names[i] !in dirs && NoneAbove(names[i], names))
  }

  ghost predicate Captured(before: Tree, names: seq<Path>) {
    WellFormed(before) && forall i :: 0 <= i < |names| ==> Readable(before, names[i])
  }

  predicate IsNew(before: Tree, dirs: seq<Path>, p: Path) {
    p in dirs && p !in before
  }

  /** The file `names[i]` is to be written back, and `p` is a directory on its way. */
  predicate OnTheWay(before: Tree, names: seq<Path>, i: nat, p: Path) {
    i < |names| && IsFile(before, names[i]) && p != [] && Above(p, names[i])
  }

  ghost predicate Remade(before: Tree, names: seq<Path>, from: nat, p: Path) {
    exists i: nat :: from <= i && OnTheWay(before, names, i, p)
  }

  /** The state of one path once the first `k` files are restored. */
  ghost predicate UndoneUpTo(before: Tree, t: Tree, names: seq<Path>, dirs: seq<Path>, k: nat, p: Path)
    requires k <= |names|
  {
    if p in names then
      if p in names[..k] then At(t, p) == At(before, p) else !IsDir(t, p)
    else if IsNew(before, dirs, p) then !IsFile(t, p)
    else At(t, p) == At(before, p) || (p !in t && Remade(before, names, k, p))
  }

  ghost predicate AllUndone(before: Tree, t: Tree, names: seq<Path>, dirs: seq<Path>, k: nat)
    requires k <= |names|
  {
    forall p: Path :: UndoneUpTo(before, t, names, dirs, k, p)
  }

  /** What a run may do: replace, add or remove snapshotted files, add listed directories, and
      remove directories on the way to a file that is written back. */
  ghost predicate Undoable(before: Tree, after: Tree, names: seq<Path>, dirs: seq<Path>) {
    AllUndone(before, after, names, dirs, 0)
  }

  // ---------------------------------------------------------------------------
  // Trees

  lemma {:induction false} AncestorsAreDirs(t: Tree, p: Path, i: nat)
    requires WellFormed(t) && p in t && 0 < i < |p|
    ensures At(t, p[..i]) == Some(Dir)
    decreases |p|
  {
    var parent := p[..|p| - 1];
    if i < |p| - 1 {
      AncestorsAreDirs(t, parent, i);
      assert parent[..i] == p[..i];
    }
  }

  lemma AboveIsDir(t: Tree, d: Path, p: Path)
    requires WellFormed(t) && p in t && d != [] && Above(d, p)
    ensures At(t, d) == Some(Dir)
  {
    AncestorsAreDirs(t, p, |d|);
  }

  lemma SameTree(a: Tree, b: Tree)
    requires forall p: Path :: At(a, p) == At(b, p)
    ensures a == b
  {
    forall p: Path ensures p in a <==> p in b {
      assert At(a, p) == At(b, p);
    }
    forall p | p in a ensures a[p] == b[p] {
      assert At(a, p) == At(b, p);
    }
  }

  // ---------------------------------------------------------------------------
  // Restoring one file

  lemma NamesAreApart(names: seq<Path>, dirs: seq<Path>, p: Path, k: nat)
    requires Layout(names, dirs) && k < |names|
    ensures Above(p, names[k]) ==> p !in names
  {
    if p in names {
      var j :| 0 <= j < |names| && names[j] == p;
      assert NoneAbove(names[j], names);
    }
  }

  /** The way to a snapshotted file is free. */
  lemma WayIsFree(before: Tree, t: Tree, names: seq<Path>, dirs: seq<Path>, k: nat)
    requires Layout(names, dirs) && Captured(before, names) && k < |names|
    requires AllUndone(before, t, names, dirs, k)
    ensures !Blocked(t, names[k])
  {
    var f := names[k];
    assert Readable(before, f);
    forall i | 0 < i < |f| ensures !IsFile(t, f[..i]) {
      var q := f[..i];
      assert !IsFile(before, q);
      assert UndoneUpTo(before, t, names, dirs, k, q);
      NamesAreApart(names, dirs, q, k);
    }
  }

  lemma OneFile(before: Tree, t: Tree, names: seq<Path>, dirs: seq<Path>, k: nat)
    requires Layout(names, dirs) && Captured(before, names) && WellFormed(t) && k < |names|
    requires AllUndone(before, t, names, dirs, k)
    ensures var (next, ok) := RestoreFile(t, Saved(names[k], Previous(before, names[k])));
            ok && WellFormed(next) && AllUndone(before, next, names, dirs, k + 1)
  {
    var f := names[k];
    WayIsFree(before, t, names, dirs, k);
    assert Readable(before, f);
    assert !IsDir(t, f) by {
      assert UndoneUpTo(before, t, names, dirs, k, f);
      assert f in names;
    }
    if !IsFile(before, f) {
      RemovedFile(before, t, names, dirs, k);
    } else if Read(t, f) == Ok(before[f].bytes) {
      UntouchedFile(before, t, names, dirs, k);
    } else {
      RewrittenFile(before, t, names, dirs, k);
    }
  }

  lemma FirstOf(names: seq<Path>, k: nat, p: Path)
    requires k < |names|
    ensures p in names[..k + 1] <==> p in names[..k] || p == names[k]
  {
    assert names[..k + 1] == names[..k] + [names[k]];
  }

  lemma RemadeNext(before: Tree, names: seq<Path>, k: nat, p: Path)
    requires Remade(before, names, k, p) && !OnTheWay(before, names, k, p)
    ensures Remade(before, names, k + 1, p)
  {
    var i: nat :| k <= i && OnTheWay(before, names, i, p);
  }

  lemma RemovedFile(before: Tree, t: Tree, names: seq<Path>, dirs: seq<Path>, k: nat)
    requires k < |names| && WellFormed(t) && Readable(before, names[k]) && Readable(t, names[k])
    requires AllUndone(before, t, names, dirs, k)
    requires !IsFile(before, names[k])
    ensures var next := t - {names[k]};
            WellFormed(next) && AllUndone(before, next, names, dirs, k + 1)
  {
    var f, next := names[k], t - {names[k]};
    var n := k + 1;
    forall p: Path ensures UndoneUpTo(before, next, names, dirs, n, p) {
      assert UndoneUpTo(before, t, names, dirs, k, p);
      FirstOf(names, k, p);
      if p != f {
        assert At(next, p) == At(t, p);
        if Remade(before, names, k, p) { RemadeNext(before, names, k, p); }
      }
    }
  }

  lemma UntouchedFile(before: Tree, t: Tree, names: seq<Path>, dirs: seq<Path>, k: nat)
    requires k < |names| && WellFormed(t) && At(t, names[k]) == At(before, names[k]) && names[k] in t
    requires AllUndone(before, t, names, dirs, k)
    ensures AllUndone(before, t, names, dirs, k + 1)
  {
    var f := names[k];
    var n := k + 1;
    forall p: Path ensures UndoneUpTo(before, t, names, dirs, n, p) {
      assert UndoneUpTo(before, t, names, dirs, k, p);
      FirstOf(names, k, p);
      if p != [] && Above(p, f) { AboveIsDir(t, p, f); }
      if p !in t && Remade(before, names, k, p) { RemadeNext(before, names, k, p); }
    }
  }

  lemma ParentIsMade(t: Tree, f: Path, p: Path)
    requires WellFormed(t) && Readable(t, f) && p in WithParents(t, f) && |p| > 1
    ensures At(WithParents(t, f), p[..|p| - 1]) == Some(Dir)
  {
    var made, parent := WithParents(t, f), p[..|p| - 1];
    assert At(made, p) == At(made, p);
    if p in t {
      assert At(t, parent) == Some(Dir);
    } else {
      assert parent == f[..|parent|];
      assert !IsFile(t, parent);
    }
    assert At(made, parent) == At(made, parent);
  }

  lemma WrittenIsWellFormed(t: Tree, f: Path, bytes: string)
    requires WellFormed(t) && Readable(t, f) && f != []
    ensures WellFormed(WithParents(t, f)[f := File(bytes)])
  {
    var made := WithParents(t, f);
    var next := made[f := File(bytes)];
    forall p | p in next ensures p != [] && (|p| > 1 ==> At(next, p[..|p| - 1]) == Some(Dir)) {
      assert At(made, p) == At(made, p);
      if |p| > 1 {
        if p in made { ParentIsMade(t, f, p); } else { ParentOfNew(t, f); }
        NotBelowFile(t, f, p);
      }
    }
  }

  lemma ParentOfNew(t: Tree, f: Path)
    requires WellFormed(t) && Readable(t, f) && |f| > 1
    ensures At(WithParents(t, f), f[..|f| - 1]) == Some(Dir)
  {
    var parent := f[..|f| - 1];
    assert Above(parent, f) && !IsFile(t, parent);
    assert At(WithParents(t, f), parent) == At(WithParents(t, f), parent);
  }

  lemma NotBelowFile(t: Tree, f: Path, p: Path)
    requires WellFormed(t) && Readable(t, f) && |p| > 1 && (p in WithParents(t, f) || p == f)
    ensures p[..|p| - 1] != f
  {
    assert At(WithParents(t, f), p) == At(WithParents(t, f), p);
    if p in t { assert At(t, p[..|p| - 1]) == Some(Dir); }
  }

  lemma RewrittenFile(before: Tree, t: Tree, names: seq<Path>, dirs: seq<Path>, k: nat)
    requires Layout(names, dirs) && k < |names| && WellFormed(before) && WellFormed(t) && Readable(t, names[k])
    requires AllUndone(before, t, names, dirs, k)
    requires IsFile(before, names[k])
    ensures var next := WithParents(t, names[k])[names[k] := before[names[k]]];
            WellFormed(next) && AllUndone(before, next, names, dirs, k + 1)
  {
    var f := names[k];
    var next := WithParents(t, f)[f := before[f]];
    WrittenIsWellFormed(t, f, before[f].bytes);
    var n := k + 1;
    forall p: Path ensures UndoneUpTo(before, next, names, dirs, n, p) {
      assert UndoneUpTo(before, t, names, dirs, k, p);
      FirstOf(names, k, p);
      if p != f {
        assert At(next, p) == At(WithParents(t, f), p);
        if p != [] && Above(p, f) {
          AboveIsDir(before, p, f);
          NamesAreApart(names, dirs, p, k);
        } else if Remade(before, names, k, p) {
          RemadeNext(before, names, k, p);
        }
      }
    }
  }

  /** Every file restored: only new directories are left over, and nothing failed. */
  lemma {:induction false} FilesComeBack(before: Tree, after: Tree, names: seq<Path>, dirs: seq<Path>, k: nat)
    requires Layout(names, dirs) && Captured(before, names) && WellFormed(after) && k <= |names|
    requires Undoable(before, after, names, dirs)
    ensures var saved := Snapshot(before, names)[..k];
            var t := RestoreFiles(after, saved);
            && WellFormed(t) && Failures(after, saved) == []
            && AllUndone(before, t, names, dirs, k)
  {
    if k > 0 {
      hide Undoable, AllUndone, Layout, Captured, RestoreFile, WellFormed;
      FilesComeBack(before, after, names, dirs, k - 1);
      var saved := Snapshot(before, names);
      assert saved[..k][..k - 1] == saved[..k - 1];
      OneFile(before, RestoreFiles(after, saved[..k - 1]), names, dirs, k - 1);
    }
  }

  // ---------------------------------------------------------------------------
  // Removing the new directories

  lemma {:induction false} AbsentDirs(t: Tree, dirs: seq<Path>)
    ensures forall p :: p in Absent(t, dirs) <==> IsNew(t, dirs, p)
    ensures DeepestFirst(dirs) ==> DeepestFirst(Absent(t, dirs))
  {
    if dirs != [] {
      var init, last := dirs[..|dirs| - 1], dirs[|dirs| - 1];
      assert dirs == init + [last];
      AbsentDirs(t, init);
      var news := Absent(t, init);
      if DeepestFirst(dirs) && last !in t {
        forall i | 0 <= i < |news| ensures !Above(news[i], last) {
          assert news[i] in news;
          assert IsNew(t, init, news[i]);
          var j :| 0 <= j < |init| && init[j] == news[i];
          assert !Above(dirs[j], dirs[|init|]);
        }
      }
    }
  }

  /** The state of one path once the first `k` new directories are gone. */
  ghost predicate CleanedUpTo(before: Tree, t: Tree, news: seq<Path>, k: nat, p: Path)
    requires k <= |news|
  {
    if p in news[k..] then !IsFile(t, p) else At(t, p) == At(before, p)
  }

  ghost predicate AllCleaned(before: Tree, t: Tree, news: seq<Path>, k: nat)
    requires k <= |news|
  {
    forall p: Path :: CleanedUpTo(before, t, news, k, p)
  }

  lemma LaterIsNotBelow(news: seq<Path>, k: nat, p: Path)
    requires DeepestFirst(news) && k < |news| && p in news[k..]
    ensures !Above(news[k], p)
  {
    var j :| 0 <= j < |news[k..]| && news[k..][j] == p;
    if j > 0 { assert !Above(news[k], news[k + j]); }
  }

  lemma NothingBelow(t: Tree, d: Path, p: Path)
    requires WellFormed(t) && d !in t && d != [] && p in t
    ensures !Above(d, p)
  {
    if Above(d, p) { AboveIsDir(t, d, p); }
  }

  lemma OneDir(before: Tree, t: Tree, news: seq<Path>, k: nat)
    requires WellFormed(before) && k < |news| && DeepestFirst(news) && news[k] !in before && news[k] != []
    requires AllCleaned(before, t, news, k)
    ensures AllCleaned(before, RemoveDir(t, news[k]), news, k + 1)
  {
    var d := news[k];
    var next := RemoveDir(t, d);
    assert CleanedUpTo(before, t, news, k, d);
    assert news[k..] == [d] + news[k + 1..];
    forall p | p in t ensures !Above(d, p) {
      assert CleanedUpTo(before, t, news, k, p);
      if p in news[k..] {
        LaterIsNotBelow(news, k, p);
      } else {
        NothingBelow(before, d, p);
      }
    }
    assert d !in next;
    var n := k + 1;
    forall p: Path ensures CleanedUpTo(before, next, news, n, p) {
      assert CleanedUpTo(before, t, news, k, p);
      if p != d { assert At(next, p) == At(t, p); }
    }
  }

  lemma {:induction false} DirsGo(before: Tree, t: Tree, news: seq<Path>, k: nat)
    requires WellFormed(before) && DeepestFirst(news) && k <= |news|
    requires forall i :: 0 <= i < |news| ==> news[i] !in before && news[i] != []
    requires AllCleaned(before, t, news, 0)
    ensures AllCleaned(before, RemoveDirs(t, news[..k]), news, k)
  {
    if k > 0 {
      DirsGo(before, t, news, k - 1);
      assert news[..k][..k - 1] == news[..k - 1];
      OneDir(before, RemoveDirs(t, news[..k - 1]), news, k - 1);
    } else {
      assert news[..0] == [];
    }
  }

  // ---------------------------------------------------------------------------
  // What restoring leaves alone

  lemma RestoreFileFrame(before: Tree, t: Tree, names: seq<Path>, i: nat, q: Path)
    requires i < |names|
    ensures var next := RestoreFile(t, Saved(names[i], Previous(before, names[i]))).0;
            && (IsDir(t, q) ==> IsDir(next, q))
            && (q != names[i] ==> At(next, q) == At(t, q) || (q !in t && IsDir(next, q) && OnTheWay(before, names, i, q)))
  {
    var f := names[i];
    assert At(WithParents(t, f), q) == At(WithParents(t, f), q);
  }

  lemma {:induction false} RestoreFilesFrame(before: Tree, t: Tree, names: seq<Path>, k: nat, q: Path)
    requires k <= |names|
    ensures var next := RestoreFiles(t, Snapshot(before, names)[..k]);
            && (IsDir(t, q) ==> IsDir(next, q))
            && (q !in names ==> At(next, q) == At(t, q) || (q !in t && IsDir(next, q) && Remade(before, names, 0, q)))
  {
    if k > 0 {
      RestoreFilesFrame(before, t, names, k - 1, q);
      var saved := Snapshot(before, names);
      assert saved[..k][..k - 1] == saved[..k - 1];
      RestoreFileFrame(before, RestoreFiles(t, saved[..k - 1]), names, k - 1, q);
    }
  }

  lemma {:induction false} RemoveDirsFrame(t: Tree, dirs: seq<Path>, q: Path)
    ensures q !in dirs || IsFile(t, q) ==> At(RemoveDirs(t, dirs), q) == At(t, q)
  {
    if dirs != [] {
      var init, last := dirs[..|dirs| - 1], dirs[|dirs| - 1];
      assert dirs == init + [last];
      RemoveDirsFrame(t, init, q);
    }
  }

  // ---------------------------------------------------------------------------
  // The theorem

  ghost function RestoredTree(before: Tree, after: Tree, names: seq<Path>, dirs: seq<Path>): Tree {
    Restored(after, Snapshot(before, names), Absent(before, dirs))
  }

  lemma UndoableIsUndone(before: Tree, after: Tree, names: seq<Path>, dirs: seq<Path>)
    requires Layout(names, dirs) && Captured(before, names) && WellFormed(after) && [] !in dirs
    requires Undoable(before, after, names, dirs)
    ensures RestoredTree(before, after, names, dirs) == before
    ensures Failures(after, Snapshot(before, names)) == []
  {
    var saved, news := Snapshot(before, names), Absent(before, dirs);
    FilesComeBack(before, after, names, dirs, |names|);
    assert WellFormed(before) && DeepestFirst(dirs);
    hide Undoable, AllUndone, AllCleaned, Captured, Layout, WellFormed, DeepestFirst, Failures, RestoreFiles, RemoveDirs, Absent, IsNew;
    assert saved[..|names|] == saved;
    var t := RestoreFiles(after, saved);
    UndoneIsCleaned(before, t, names, dirs);
    AbsentDirs(before, dirs);
    NewDirsAreNew(before, dirs);
    DirsGo(before, t, news, |news|);
    assert news[..|news|] == news;
    CleanedIsSame(before, RemoveDirs(t, news), news);
  }

  /** Once all files are restored, only the new directories are left to clean. */
  lemma UndoneIsCleaned(before: Tree, t: Tree, names: seq<Path>, dirs: seq<Path>)
    requires Layout(names, dirs) && AllUndone(before, t, names, dirs, |names|)
    ensures AllCleaned(before, t, Absent(before, dirs), 0)
  {
    var news := Absent(before, dirs);
    AbsentDirs(before, dirs);
    hide DeepestFirst, Absent, NoneAbove;
    assert news[0..] == news && names[..|names|] == names;
    forall p: Path ensures CleanedUpTo(before, t, news, 0, p) {
      assert UndoneUpTo(before, t, names, dirs, |names|, p);
      NothingLeftToRemake(before, names, p);
      if p in names {
        var j :| 0 <= j < |names| && names[j] == p;
        assert names[j] !in dirs;
      }
    }
  }

  lemma NothingLeftToRemake(before: Tree, names: seq<Path>, p: Path)
    ensures !Remade(before, names, |names|, p)
  {
  }

  lemma NewDirsAreNew(before: Tree, dirs: seq<Path>)
    requires [] !in dirs
    ensures forall i :: 0 <= i < |Absent(before, dirs)| ==> Absent(before, dirs)[i] !in before && Absent(before, dirs)[i] != []
  {
    AbsentDirs(before, dirs);
    hide DeepestFirst, Absent;
    var news := Absent(before, dirs);
    forall i | 0 <= i < |news| ensures news[i] !in before && news[i] != [] { assert news[i] in news; }
  }

  lemma CleanedIsSame(before: Tree, end: Tree, news: seq<Path>)
    requires AllCleaned(before, end, news, |news|)
    ensures end == before
  {
    assert news[|news|..] == [];
    forall p: Path ensures At(end, p) == At(before, p) {
      assert CleanedUpTo(before, end, news, |news|, p);
    }
    SameTree(end, before);
  }

  lemma UndoneIsUndoable(before: Tree, after: Tree, names: seq<Path>, dirs: seq<Path>)
    requires Layout(names, dirs) && Captured(before, names)
    requires RestoredTree(before, after, names, dirs) == before
    ensures Undoable(before, after, names, dirs)
  {
    var saved, news := Snapshot(before, names), Absent(before, dirs);
    assert saved[..|names|] == saved && names[..0] == [];
    AbsentDirs(before, dirs);
    forall p: Path ensures UndoneUpTo(before, after, names, dirs, 0, p) {
      RestoreFilesFrame(before, after, names, |names|, p);
      RemoveDirsFrame(RestoreFiles(after, saved), news, p);
      if p in names {
        var j :| 0 <= j < |names| && names[j] == p;
        assert names[j] !in dirs && Readable(before, names[j]);
      }
    }
  }

  /** Restoring puts the tree back exactly when the run was of the kind `Undoable` describes;
      then no file fails either. */
  lemma RestoreUndoesExactly(before: Tree, after: Tree, names: seq<Path>, dirs: seq<Path>)
    requires Layout(names, dirs) && Captured(before, names) && WellFormed(after) && [] !in dirs
    ensures RestoredTree(before, after, names, dirs) == before <==> Undoable(before, after, names, dirs)
    ensures Undoable(before, after, names, dirs) ==> Failures(after, Snapshot(before, names)) == []
  {
    if Undoable(before, after, names, dirs) { UndoableIsUndone(before, after, names, dirs); }
    if RestoredTree(before, after, names, dirs) == before { UndoneIsUndoable(before, after, names, dirs); }
  }

  lemma FileShape(i: nat)
    requires i < |SYNTHESIZED_FILES|
    ensures var f := SYNTHESIZED_FILES[i];
            && 1 <= |f| <= 3 && |f[0]| > 1 && (|f| == 1 <==> f[0][1] == 'm')
            && (|f| > 1 ==> f[1] != "" && (|f| == 3 <==> f[1][0] == 'r' || f[1][0] == 'a'))
  {
    if i == 0 { assert SYNTHESIZED_FILES[i] == [".mcp.json"]; }
    else if i == 1 { assert SYNTHESIZED_FILES[i] == [".claude", "settings.json"]; }
    else if i == 2 { assert SYNTHESIZED_FILES[i] == [".cursor", "mcp.json"]; }
    else if i == 3 { assert SYNTHESIZED_FILES[i] == [".cursor", "cli.json"]; }
    else if i == 4 { assert SYNTHESIZED_FILES[i] == [".codex", "config.toml"]; }
    else if i == 5 { assert SYNTHESIZED_FILES[i] == [".codex", "rules", "gaviero.rules"]; }
    else if i == 6 { assert SYNTHESIZED_FILES[i] == [".codex", "agents", "gaviero-worker.toml"]; }
    else if i == 7 { assert SYNTHESIZED_FILES[i] == [".gaviero", "mcp-endpoint.json"]; }
    else { assert SYNTHESIZED_FILES[i] == [".gaviero", "managed-permissions.json"]; }
  }

  lemma DirShape(i: nat)
    requires i < |SYNTHESIZED_DIRS|
    ensures var d := SYNTHESIZED_DIRS[i];
            && |d| == (if i < 2 then 2 else 1) && |d[0]| > 1 && d[0][1] == 'c'
            && (|d| == 2 ==> d[1] != "" && (d[1][0] == 'r' || d[1][0] == 'a'))
  {
    if i == 0 { assert SYNTHESIZED_DIRS[i] == [".codex", "rules"]; }
    else if i == 1 { assert SYNTHESIZED_DIRS[i] == [".codex", "agents"]; }
    else if i == 2 { assert SYNTHESIZED_DIRS[i] == [".codex"]; }
    else if i == 3 { assert SYNTHESIZED_DIRS[i] == [".cursor"]; }
    else { assert SYNTHESIZED_DIRS[i] == [".claude"]; }
  }

  /** The program's own lists are laid out as the theorem needs. */
  lemma SynthesizedLayout()
    ensures Layout(SYNTHESIZED_FILES, SYNTHESIZED_DIRS) && [] !in SYNTHESIZED_DIRS
  {
    var names, dirs := SYNTHESIZED_FILES, SYNTHESIZED_DIRS;
    forall i, j | 0 <= i < j < |dirs| ensures !Above(dirs[i], dirs[j]) {
      DirShape(i);
      DirShape(j);
    }
    forall i | 0 <= i < |names| ensures names[i] != [] && names[i] !in dirs && NoneAbove(names[i], names) {
      FileShape(i);
      forall j | 0 <= j < |dirs| ensures dirs[j] != names[i] { DirShape(j); }
      forall j | 0 <= j < |names| ensures !Above(names[i], names[j]) { FileShape(j); }
    }
    forall j | 0 <= j < |dirs| ensures dirs[j] != [] { DirShape(j); }
  }

  /** An isolated run over the program's own lists. */
  lemma IsolatedRunIsUndone(before: Tree, after: Tree)
    requires Captured(before, SYNTHESIZED_FILES) && WellFormed(after)
    ensures RestoredTree(before, after, SYNTHESIZED_FILES, SYNTHESIZED_DIRS) == before
            <==> Undoable(before, after, SYNTHESIZED_FILES, SYNTHESIZED_DIRS)
  {
    SynthesizedLayout();
    RestoreUndoesExactly(before, after, SYNTHESIZED_FILES, SYNTHESIZED_DIRS);
  }

  /** What is in no list and was added stays. */
  lemma UnlistedStays(before: Tree, after: Tree, names: seq<Path>, dirs: seq<Path>, p: Path)
    requires Layout(names, dirs) && Captured(before, names) && p !in names && p !in dirs
    requires p !in before && p in after
    ensures RestoredTree(before, after, names, dirs) != before
  {
    assert !UndoneUpTo(before, after, names, dirs, 0, p);
    assert !Undoable(before, after, names, dirs);
    if RestoredTree(before, after, names, dirs) == before { UndoneIsUndoable(before, after, names, dirs); }
  }

  lemma GavieroIsUnlisted()
    ensures [".gaviero"] !in SYNTHESIZED_FILES && [".gaviero"] !in SYNTHESIZED_DIRS
  {
    forall i | 0 <= i < |SYNTHESIZED_FILES| ensures SYNTHESIZED_FILES[i] != [".gaviero"] { FileShape(i); }
    forall i | 0 <= i < |SYNTHESIZED_DIRS| ensures SYNTHESIZED_DIRS[i] != [".gaviero"] { DirShape(i); }
  }

  /** An isolated run that made `.gaviero`, which is in no list, leaves it behind. */
  lemma GavieroDirectoryStays(before: Tree, after: Tree)
    requires Captured(before, SYNTHESIZED_FILES) && [".gaviero"] !in before && [".gaviero"] in after
    ensures RestoredTree(before, after, SYNTHESIZED_FILES, SYNTHESIZED_DIRS) != before
  {
    SynthesizedLayout();
    GavieroIsUnlisted();
    UnlistedStays(before, after, SYNTHESIZED_FILES, SYNTHESIZED_DIRS, [".gaviero"]);
  }

  /** The order of the list matters: shallowest first, an empty nest of new directories stays. */
  lemma ShallowFirstLeavesDirectory()
    ensures var codex, rules := [".codex"], [".codex", "rules"];
            var after: Tree := map[codex := Dir, rules := Dir];
            && Undoable(map[], after, [], [codex, rules])
            && RestoredTree(map[], after, [], [codex, rules]) == map[codex := Dir]
            && RestoredTree(map[], after, [], [rules, codex]) == map[]
  {
    var codex, rules := [".codex"], [".codex", "rules"];
    var before: Tree := map[];
    var after: Tree := map[codex := Dir, rules := Dir];
    TwoAbsent(before, codex, rules);
    TwoAbsent(before, rules, codex);
    NestedDirs(codex, rules);
    assert Snapshot(before, []) == [];
  }

  lemma NestedDirs(d: Path, inner: Path)
    requires Above(d, inner)
    ensures var t: Tree := map[d := Dir, inner := Dir];
            RemoveDirs(t, [d, inner]) == map[d := Dir] && RemoveDirs(t, [inner, d]) == map[]
  {
    var t: Tree := map[d := Dir, inner := Dir];
    TwoRemoved(t, d, inner);
    TwoRemoved(t, inner, d);
    assert inner in t && !IsEmptyDir(t, d);
    assert RemoveDir(t, d) == t;
    assert RemoveDir(t, inner) == map[d := Dir];
  }

  lemma TwoAbsent(t: Tree, a: Path, b: Path)
    requires a !in t && b !in t
    ensures Absent(t, [a, b]) == [a, b]
  {
    assert [a, b][..1] == [a] && [a][..0] == [];
    assert Absent(t, [a]) == [a];
  }

  lemma TwoRemoved(t: Tree, a: Path, b: Path)
    ensures RemoveDirs(t, [a, b]) == RemoveDir(RemoveDir(t, a), b)
  {
    assert [a, b][..1] == [a] && [a][..0] == [];
    assert RemoveDirs(t, [a]) == RemoveDir(t, a);
  }

  // ---------------------------------------------------------------------------
  // Which files fail

  /** One file: it comes back as it was saved, and only it and missing directories above it
      change, unless a directory stands in its place or a file above it. */
  lemma FileOutcome(t: Tree, s: Saved)
    ensures var (next, ok) := RestoreFile(t, s);
            && (ok <==> !Blocked(t, s.path) && !IsDir(t, s.path))
            && (ok ==> At(next, s.path) == if s.previous.Some? then Some(File(s.previous.value)) else None)
            && (forall q :: q != s.path ==>
                  At(next, q) == At(t, q) || (s.previous.Some? && q !in t && |q| > 0 && Above(q, s.path) && IsDir(next, q)))
  {
    var (next, ok) := RestoreFile(t, s);
    forall q | q != s.path
      ensures At(next, q) == At(t, q) || (s.previous.Some? && q !in t && |q| > 0 && Above(q, s.path) && IsDir(next, q))
    {
      assert At(WithParents(t, s.path), q) == At(WithParents(t, s.path), q);
    }
  }

  function Paths(files: seq<Saved>): (paths: seq<Path>)
    ensures |paths| == |files|
    ensures forall i :: 0 <= i < |files| ==> paths[i] == files[i].path
  {
    seq(|files|, i requires 0 <= i < |files| => files[i].path)
  }

  /** When its turn comes, a directory stands at the path or a file above it. */
  predicate FailsAt(t: Tree, files: seq<Saved>, i: nat)
    requires i < |files|
  {
    Blocked(RestoreFiles(t, files[..i]), files[i].path) || IsDir(RestoreFiles(t, files[..i]), files[i].path)
  }

  lemma FailsAtBefore(t: Tree, init: seq<Saved>, last: Saved, i: nat)
    requires i < |init|
    ensures FailsAt(t, init + [last], i) <==> FailsAt(t, init, i)
  {
    hide RestoreFiles, Blocked, IsDir;
    assert (init + [last])[..i] == init[..i] && (init + [last])[i] == init[i];
  }

  lemma FailsAtLast(t: Tree, init: seq<Saved>, last: Saved)
    ensures FailsAt(t, init + [last], |init|) <==> !RestoreFile(RestoreFiles(t, init), last).1
  {
    FileOutcome(RestoreFiles(t, init), last);
    hide RestoreFiles, RestoreFile, Blocked, IsDir;
    assert (init + [last])[..|init|] == init;
  }

  lemma FailuresSnoc(t: Tree, init: seq<Saved>, last: Saved)
    ensures Failures(t, init + [last])
            == if RestoreFile(RestoreFiles(t, init), last).1 then Failures(t, init) else Failures(t, init) + [last.path]
  {
    hide RestoreFiles, RestoreFile;
    assert (init + [last])[..|init|] == init;
  }

  lemma PathsSnoc(init: seq<Saved>, last: Saved)
    ensures Paths(init + [last]) == Paths(init) + [last.path]
  {
  }

  lemma NoFailures(t: Tree)
    ensures PartAt(Paths([]), Failures(t, []), [])
  {
  }

  lemma {:induction false} FailingPlaces(t: Tree, files: seq<Saved>) returns (places: seq<nat>)
    ensures PartAt(Paths(files), Failures(t, files), places)
    ensures forall i :: 0 <= i < |files| ==> (i in places <==> FailsAt(t, files, i))
  {
    hide *;
    if files == [] {
      places := [];
      NoFailures(t);
    } else {
      var init, last := files[..|files| - 1], files[|files| - 1];
      assert files == init + [last];
      places := FailingPlaces(t, init);
      forall i | 0 <= i < |init| ensures FailsAt(t, files, i) <==> FailsAt(t, init, i) { FailsAtBefore(t, init, last, i); }
      FailsAtLast(t, init, last);
      FailuresSnoc(t, init, last);
      PathsSnoc(init, last);
      PartGrows(Paths(init), Failures(t, init), places, last.path);
      LastPlace(places, |init|);
      if FailsAt(t, files, |init|) { places := places + [|init|]; }
    }
  }

  /** The reported paths are, in list order, those at which, when their turn came, a directory
      stood or a file stood above. */
  lemma FailuresAreBlocked(t: Tree, files: seq<Saved>) returns (places: seq<nat>)
    ensures PartAt(Paths(files), Failures(t, files), places)
    ensures forall i :: 0 <= i < |files| ==>
              (i in places <==> Blocked(RestoreFiles(t, files[..i]), files[i].path) || IsDir(RestoreFiles(t, files[..i]), files[i].path))
  {
    places := FailingPlaces(t, files);
    hide Failures, Paths, PartAt, RestoreFiles, Blocked, IsDir;
    assert forall i :: 0 <= i < |files| ==> (i in places <==> FailsAt(t, files, i));
  }
}
