/** The two readers of the settings files: a `Workspace`, which holds three layers, and
    `LayeredSettings`, which drops a folder listed twice. Models
    crates/gaviero-core/src/workspace.rs; folder paths stand for their canonical form. */
module WorkspaceSettings {
  import opened Json
  import opened Settings

  /** Where the three layers of a folder live. */
  datatype Places = Places(user: Option<string>, workspaceDir: Option<string>, repo: string) {
    function Candidates(): seq<string> {
      (if user.Some? then [user.value] else []) + (if workspaceDir.Some? then [workspaceDir.value] else []) + [repo]
    }

    /** The folder of the workspace layer. */
    function WorkspaceBase(): string {
      if workspaceDir.Some? then workspaceDir.value else repo
    }
  }

  /** Keeps the first occurrence of each folder. */
  function Dedup(bases: seq<string>): seq<string> {
    if bases == [] then []
    else
      var init, last := Dedup(bases[..|bases| - 1]), bases[|bases| - 1];
      if last in init then init else init + [last]
  }

  lemma DedupNothing(bases: seq<string>)
    ensures Dedup(bases[..0]) == []
  {
  }

  lemma DedupSnoc(bases: seq<string>, last: string)
    ensures Dedup(bases + [last]) == if last in Dedup(bases) then Dedup(bases) else Dedup(bases) + [last]
  {
    assert (bases + [last])[..|bases|] == bases;
  }

  method LayerBases(places: Places) returns (out: seq<string>)
    ensures out == Dedup(places.Candidates())
  {
    hide *;
    out := [];
    var candidates := places.Candidates();
    DedupNothing(candidates);
    for i := 0 to |candidates|
      invariant out == Dedup(candidates[..i])
    {
      DedupSnoc(candidates[..i], candidates[i]);
      assert candidates[..i + 1] == candidates[..i] + [candidates[i]];
      if candidates[i] !in out {
        out := out + [candidates[i]];
      }
    }
    assert candidates[..|candidates|] == candidates;
  }

  function DocAt(base: string, read: string -> File): seq<Value> {
    if read(base).Parsed? then [read(base).doc] else []
  }

  function UserDocs(p: Places, read: string -> File): seq<Value> {
    if p.user.Some? then DocAt(p.user.value, read) else []
  }

  /** A lookup for the folder `root`, or for none, in a workspace of these folders. */
  datatype Lookup = Lookup(root: Option<string>, workspaceFile: bool, folders: seq<string>) {
    /** The folder whose file is the repo layer: `root` itself if its file is loaded, else the
        one folder when no workspace file is open, else none. */
    function RepoLayer(): Option<string> {
      match root
      case Some(folder) => if folder in folders then Some(folder) else None
      case None => if !workspaceFile && |folders| == 1 then Some(folders[0]) else None
    }

    /** The folder asked for is the one that `p` places. */
    predicate AsksFor(p: Places) {
      match root
      case Some(folder) => folder == p.repo
      case None => RepoLayer().Some? ==> folders[0] == p.repo
    }
  }

  function RepoDocs(repoLayer: Option<string>, read: string -> File): seq<Value> {
    if repoLayer.Some? then DocAt(repoLayer.value, read) else []
  }

  /** What a `Workspace` folds over: the user file if it parsed, the workspace file or null,
      the repo layer if there is one and it parsed. */
  function WorkspaceLayers(places: Places, repoLayer: Option<string>, read: string -> File): seq<Value> {
    UserDocs(places, read) +
    (if read(places.WorkspaceBase()).Parsed? then [read(places.WorkspaceBase()).doc] else [Null]) +
    RepoDocs(repoLayer, read)
  }

  function ResolveSettingOpt(places: Places, repoLayer: Option<string>, read: string -> File, key: string,
                             defaults: string -> Value): Option<Value> {
    Cascade(WorkspaceLayers(places, repoLayer, read), key, defaults)
  }

  function LayeredGet(places: Places, read: string -> File, key: string, defaults: string -> Value): Option<Value> {
    Loaded(Dedup(places.Candidates()), read, defaults).Get(key)
  }

  lemma DocsSnoc(bases: seq<string>, last: string, read: string -> File, defaults: string -> Value)
    ensures Loaded(bases + [last], read, defaults).Docs() == Loaded(bases, read, defaults).Docs() + DocAt(last, read)
  {
    assert (bases + [last])[..|bases|] == bases;
  }

  lemma NothingLoaded(read: string -> File, defaults: string -> Value)
    ensures Loaded([], read, defaults).Docs() == []
  {
  }

  lemma DocsOfBases(bases: seq<string>, read: string -> File, defaults: string -> Value)
    requires |bases| <= 3
    ensures Loaded(bases, read, defaults).Docs() ==
            (if |bases| > 0 then DocAt(bases[0], read) else []) +
            (if |bases| > 1 then DocAt(bases[1], read) else []) +
            (if |bases| > 2 then DocAt(bases[2], read) else [])
  {
    NothingLoaded(read, defaults);
    hide *;
    if |bases| > 0 {
      DocsSnoc([], bases[0], read, defaults);
      assert [] + [bases[0]] == bases[..1];
    }
    if |bases| > 1 {
      DocsSnoc(bases[..1], bases[1], read, defaults);
      assert bases[..1] + [bases[1]] == bases[..2];
    }
    if |bases| > 2 {
      DocsSnoc(bases[..2], bases[2], read, defaults);
      assert bases[..2] + [bases[2]] == bases[..3];
    }
    assert bases[..|bases|] == bases;
  }

  lemma DedupOne(x: string)
    ensures Dedup([x]) == [x]
  {
    DedupSnoc([], x);
    assert [] + [x] == [x];
  }

  lemma DedupTwo(x: string, y: string)
    ensures Dedup([x, y]) == if x == y then [x] else [x, y]
  {
    DedupOne(x);
    DedupSnoc([x], y);
    assert [x] + [y] == [x, y];
  }

  lemma DedupThree(x: string, y: string, z: string)
    ensures Dedup([x, y, z]) ==
            if x == y then (if z == x then [x] else [x, z]) else if z == x || z == y then [x, y] else [x, y, z]
  {
    DedupTwo(x, y);
    DedupSnoc([x, y], z);
    assert [x, y] + [z] == [x, y, z];
  }

  lemma RepeatedDocs(before: seq<Value>, docs: seq<Value>, after: seq<Value>, key: string, defaults: string -> Value)
    requires |docs| <= 1
    ensures Cascade(before + docs + docs + after, key, defaults) == Cascade(before + docs + after, key, defaults)
  {
    if docs == [] {
      assert before + docs + docs + after == before + docs + after;
    } else {
      assert before + docs + docs + after == before + [docs[0], docs[0]] + after;
      assert before + docs + after == before + [docs[0]] + after;
      RepeatedLayerIsHarmless(before, docs[0], after, key, defaults);
    }
  }

  /** The workspace file counts only if it parsed. */
  lemma WorkspaceLayersWithoutNull(p: Places, repoLayer: Option<string>, read: string -> File, key: string,
                                   defaults: string -> Value)
    ensures ResolveSettingOpt(p, repoLayer, read, key, defaults) ==
            Cascade(UserDocs(p, read) + DocAt(p.WorkspaceBase(), read) + RepoDocs(repoLayer, read), key, defaults)
  {
    var u := UserDocs(p, read);
    if !read(p.WorkspaceBase()).Parsed? {
      NullLayerIsNeutral(u, RepoDocs(repoLayer, read), key, defaults);
      assert u + DocAt(p.WorkspaceBase(), read) + RepoDocs(repoLayer, read) == u + RepoDocs(repoLayer, read);
    }
  }

  /** The repo file is also the user file, with another folder's file between them: the one
      arrangement whose order dropping duplicates changes. */
  predicate UserAroundWorkspace(p: Places) {
    p.user == Some(p.repo) && p.workspaceDir.Some? && p.workspaceDir != Some(p.repo)
  }

  /** Which folders are left, in which order. */
  lemma BasesOf(p: Places)
    requires !UserAroundWorkspace(p)
    ensures Dedup(p.Candidates()) ==
            (if p.user.Some? && p.user != Some(p.WorkspaceBase()) && p.user != Some(p.repo) then [p.user.value] else []) +
            (if p.WorkspaceBase() != p.repo then [p.WorkspaceBase()] else []) +
            [p.repo]
  {
    hide Dedup;
    match (p.user, p.workspaceDir) {
      case (None, None) =>
        assert p.Candidates() == [p.repo];
        DedupOne(p.repo);
      case (None, Some(w)) =>
        assert p.Candidates() == [w, p.repo];
        DedupTwo(w, p.repo);
      case (Some(u), None) =>
        assert p.Candidates() == [u, p.repo];
        DedupTwo(u, p.repo);
      case (Some(u), Some(w)) =>
        assert p.Candidates() == [u, w, p.repo];
        DedupThree(u, w, p.repo);
    }
  }

  lemma LoadedDocs(p: Places, read: string -> File, defaults: string -> Value)
    requires !UserAroundWorkspace(p)
    ensures Loaded(Dedup(p.Candidates()), read, defaults).Docs() ==
            (if p.user.Some? && p.user != Some(p.WorkspaceBase()) && p.user != Some(p.repo) then UserDocs(p, read) else []) +
            (if p.WorkspaceBase() != p.repo then DocAt(p.WorkspaceBase(), read) else []) +
            DocAt(p.repo, read)
  {
    hide Dedup, Loaded, DocAt;
    var bases := Dedup(p.Candidates());
    BasesOf(p);
    DocsOfBases(bases, read, defaults);
  }

  lemma DocAtIsShort(base: string, read: string -> File)
    ensures |DocAt(base, read)| <= 1
  {
  }

  lemma CollapseLayers(p: Places, read: string -> File, key: string, defaults: string -> Value)
    requires !UserAroundWorkspace(p)
    ensures ResolveSettingOpt(p, Some(p.repo), read, key, defaults) ==
            Cascade(Loaded(Dedup(p.Candidates()), read, defaults).Docs(), key, defaults)
  {
    hide Dedup, Loaded, Cascade, DocAt, WorkspaceLayers, ResolveSettingOpt;
    var u, w, r := UserDocs(p, read), DocAt(p.WorkspaceBase(), read), DocAt(p.repo, read);
    DocAtIsShort(p.WorkspaceBase(), read);
    DocAtIsShort(p.repo, read);
    var docs := Loaded(Dedup(p.Candidates()), read, defaults).Docs();
    WorkspaceLayersWithoutNull(p, Some(p.repo), read, key, defaults);
    LoadedDocs(p, read, defaults);
    if p.WorkspaceBase() == p.repo {
      RepeatedDocs(u, r, [], key, defaults);
      assert u + r + r + [] == u + w + r && u + r + [] == u + r;
      if p.user == Some(p.repo) {
        assert u == r;
        RepeatedDocs([], r, [], key, defaults);
        assert [] + r + r + [] == u + r && [] + r + [] == docs;
      } else {
        assert docs == u + r;
      }
    } else if p.user == Some(p.WorkspaceBase()) {
      assert u == w;
      RepeatedDocs([], w, r, key, defaults);
      assert [] + w + w + r == u + w + r && [] + w + r == docs;
    } else {
      assert docs == u + w + r;
    }
  }

  /** Without a repo layer, the repo's file is still read where it is another layer too. */
  predicate RepoIsAnotherLayer(p: Places) {
    p.WorkspaceBase() == p.repo || p.user == Some(p.repo)
  }

  lemma CollapseWithoutRepo(p: Places, read: string -> File, key: string, defaults: string -> Value)
    requires RepoIsAnotherLayer(p)
    ensures ResolveSettingOpt(p, None, read, key, defaults) ==
            Cascade(Loaded(Dedup(p.Candidates()), read, defaults).Docs(), key, defaults)
  {
    hide Dedup, Loaded, Cascade, DocAt, WorkspaceLayers, ResolveSettingOpt;
    var u, w := UserDocs(p, read), DocAt(p.WorkspaceBase(), read);
    DocAtIsShort(p.repo, read);
    var docs := Loaded(Dedup(p.Candidates()), read, defaults).Docs();
    WorkspaceLayersWithoutNull(p, None, read, key, defaults);
    assert u + w + [] == u + w;
    if UserAroundWorkspace(p) {
      var base := p.workspaceDir.value;
      assert p.Candidates() == [p.repo, base, p.repo];
      DedupThree(p.repo, base, p.repo);
      DocsOfBases([p.repo, base], read, defaults);
      assert u + w + [] == docs;
    } else {
      LoadedDocs(p, read, defaults);
      if p.user == Some(p.repo) {
        RepeatedDocs([], w, [], key, defaults);
        assert [] + w + w + [] == u + w && [] + w + [] == docs;
      } else {
        assert docs == u + w;
      }
    }
  }

  /** When both readers fold the same files to the same end. */
  predicate SameFold(p: Places, repoLayer: Option<string>) {
    if repoLayer.Some? then !UserAroundWorkspace(p) else RepoIsAnotherLayer(p)
  }

  lemma FoldsAgree(p: Places, repoLayer: Option<string>, read: string -> File, key: string, defaults: string -> Value)
    requires repoLayer == None || repoLayer == Some(p.repo)
    requires SameFold(p, repoLayer) && Walkable(key)
    ensures ResolveSettingOpt(p, repoLayer, read, key, defaults) == LayeredGet(p, read, key, defaults)
  {
    hide Cascade, ResolveSettingOpt, Walkable, Loaded, Dedup;
    if repoLayer.Some? {
      CollapseLayers(p, read, key, defaults);
    } else {
      CollapseWithoutRepo(p, read, key, defaults);
    }
    GetAgreesOnWalkable(Dedup(p.Candidates()), read, defaults, key);
  }

  ghost function Says(b: bool): Value {
    Object(map["k" := Bool(b)])
  }

  lemma BoolOf(before: seq<Value>, b: bool, defaults: string -> Value)
    ensures Cascade(before + [Says(b)], "k", defaults) == Some(Bool(b))
  {
    hide Cascade;
    CascadeSnoc(before, Says(b), "k", defaults);
    assert "k" + "+" == "k+" && FirstDot("k+") == 2;
  }

  /** The file of the repo says no, every other file says yes. */
  ghost function SaysNo(repo: string): string -> File {
    (base: string) => Parsed(Says(base != repo))
  }

  lemma WorkspaceSaysNo(p: Places, defaults: string -> Value)
    requires UserAroundWorkspace(p)
    ensures ResolveSettingOpt(p, Some(p.repo), SaysNo(p.repo), "k", defaults) == Some(Bool(false))
  {
    hide Cascade, DotGet;
    assert WorkspaceLayers(p, Some(p.repo), SaysNo(p.repo)) == [Says(false), Says(true)] + [Says(false)];
    BoolOf([Says(false), Says(true)], false, defaults);
  }

  lemma LayersSayYes(p: Places, defaults: string -> Value)
    requires UserAroundWorkspace(p)
    ensures LayeredGet(p, SaysNo(p.repo), "k", defaults) == Some(Bool(true))
  {
    hide Cascade, DotGet, Dedup, Loaded, FirstDot, EndsWithPlus;
    var read, w := SaysNo(p.repo), p.workspaceDir.value;
    assert p.Candidates() == [p.repo, w, p.repo];
    DedupThree(p.repo, w, p.repo);
    DocsOfBases([p.repo, w], read, defaults);
    KIsWalkable();
    GetAgreesOnWalkable([p.repo, w], read, defaults, "k");
    assert DocAt(p.repo, read) + DocAt(w, read) + [] == [Says(false)] + [Says(true)];
    BoolOf([Says(false)], true, defaults);
  }

  /** Only the repo has a file. */
  ghost function OnlyRepo(repo: string): string -> File {
    (base: string) => if base == repo then Parsed(Says(true)) else Missing
  }

  lemma OnlyLayersSeeRepo(p: Places, defaults: string -> Value)
    requires !RepoIsAnotherLayer(p)
    ensures ResolveSettingOpt(p, None, OnlyRepo(p.repo), "k", defaults) == None
    ensures LayeredGet(p, OnlyRepo(p.repo), "k", defaults) == Some(Bool(true))
  {
    hide Cascade, DotGet, Dedup, Loaded, FirstDot, EndsWithPlus;
    var read := OnlyRepo(p.repo);
    WorkspaceLayersWithoutNull(p, None, read, "k", defaults);
    assert UserDocs(p, read) + DocAt(p.WorkspaceBase(), read) + [] == [];
    NothingCascades("k", defaults);
    LoadedDocs(p, read, defaults);
    KIsWalkable();
    GetAgreesOnWalkable(Dedup(p.Candidates()), read, defaults, "k");
    assert Loaded(Dedup(p.Candidates()), read, defaults).Docs() == [] + [Says(true)];
    BoolOf([], true, defaults);
  }

  lemma NothingCascades(key: string, defaults: string -> Value)
    ensures Cascade([], key, defaults) == None
  {
  }

  lemma KIsWalkable()
    ensures Walkable("k")
  {
  }

  lemma ReadersDisagree(p: Places, repoLayer: Option<string>, defaults: string -> Value)
    requires repoLayer == None || repoLayer == Some(p.repo)
    requires !SameFold(p, repoLayer)
    ensures exists read :: ResolveSettingOpt(p, repoLayer, read, "k", defaults) != LayeredGet(p, read, "k", defaults)
  {
    hide ResolveSettingOpt, LayeredGet, UserAroundWorkspace, RepoIsAnotherLayer;
    if repoLayer.Some? {
      WorkspaceSaysNo(p, defaults);
      LayersSayYes(p, defaults);
    } else {
      OnlyLayersSeeRepo(p, defaults);
    }
  }

  /** A lookup and the layered reader resolve a walkable key alike in these cases. */
  lemma ReadersAgree(p: Places, lookup: Lookup, read: string -> File, key: string, defaults: string -> Value)
    requires lookup.AsksFor(p) && Walkable(key)
    requires if lookup.RepoLayer().Some? then !UserAroundWorkspace(p) else RepoIsAnotherLayer(p)
    ensures ResolveSettingOpt(p, lookup.RepoLayer(), read, key, defaults) == LayeredGet(p, read, key, defaults)
  {
    hide ResolveSettingOpt, LayeredGet, Walkable, UserAroundWorkspace, RepoIsAnotherLayer;
    FoldsAgree(p, lookup.RepoLayer(), read, key, defaults);
  }

  /** They resolve every walkable key alike, whatever the files hold, exactly when the repo is
      not the user folder around another workspace folder; a lookup that finds no repo layer (no
      root in a workspace, or a root whose file is not loaded) exactly when the repo's file is
      read as another layer. */
  lemma ReadersAgreeExactly(p: Places, lookup: Lookup, defaults: string -> Value)
    requires lookup.AsksFor(p)
    ensures (forall read, key :: Walkable(key) ==>
               ResolveSettingOpt(p, lookup.RepoLayer(), read, key, defaults) == LayeredGet(p, read, key, defaults))
            <==> if lookup.RepoLayer().Some? then !UserAroundWorkspace(p) else RepoIsAnotherLayer(p)
  {
    hide ResolveSettingOpt, LayeredGet, UserAroundWorkspace, RepoIsAnotherLayer, Walkable;
    var repoLayer := lookup.RepoLayer();
    if !SameFold(p, repoLayer) {
      ReadersDisagree(p, repoLayer, defaults);
      KIsWalkable();
    } else {
      forall read, key | Walkable(key)
        ensures ResolveSettingOpt(p, repoLayer, read, key, defaults) == LayeredGet(p, read, key, defaults)
      {
        ReadersAgree(p, lookup, read, key, defaults);
      }
    }
  }

  // ---------------------------------------------------------------------------
  // Which file wins

  /** What the file in a folder sets the key to. */
  function Own(read: string -> File, base: string, key: string): Option<Value> {
    if read(base).Parsed? then DotGet(read(base).doc, key) else None
  }

  predicate AddsNothing(read: string -> File, base: string, key: string) {
    read(base).Parsed? ==> DotGet(read(base).doc, key + "+") == None
  }

  lemma FileDecides(layers: seq<Value>, base: string, read: string -> File, key: string, defaults: string -> Value)
    requires AddsNothing(read, base, key)
    ensures Cascade(layers + DocAt(base, read), key, defaults)
            == if Own(read, base, key).Some? then Own(read, base, key) else Cascade(layers, key, defaults)
  {
    hide DotGet, Cascade;
    if read(base).Parsed? {
      MostSpecificDecides(layers, read(base).doc, key, defaults);
    } else {
      assert layers + [] == layers;
    }
  }

  lemma AskedLayer(p: Places, lookup: Lookup)
    requires lookup.AsksFor(p)
    ensures var asksRepo := if lookup.root.Some? then p.repo in lookup.folders
                            else !lookup.workspaceFile && lookup.folders == [p.repo];
            lookup.RepoLayer() == if asksRepo then Some(p.repo) else None
  {
    if |lookup.folders| == 1 { assert lookup.folders == [lookup.folders[0]]; }
  }

  lemma FoldPrecedence(p: Places, repoLayer: Option<string>, read: string -> File, key: string, defaults: string -> Value)
    requires repoLayer == None || repoLayer == Some(p.repo)
    requires AddsNothing(read, p.repo, key) && AddsNothing(read, p.WorkspaceBase(), key)
    requires p.user.Some? ==> AddsNothing(read, p.user.value, key)
    ensures ResolveSettingOpt(p, repoLayer, read, key, defaults) ==
            if repoLayer.Some? && Own(read, p.repo, key).Some? then Own(read, p.repo, key)
            else if Own(read, p.WorkspaceBase(), key).Some? then Own(read, p.WorkspaceBase(), key)
            else if p.user.Some? then Own(read, p.user.value, key) else None
  {
    var u, w := UserDocs(p, read), DocAt(p.WorkspaceBase(), read);
    WorkspaceLayersWithoutNull(p, repoLayer, read, key, defaults);
    hide Cascade, DocAt, Own, AddsNothing, ResolveSettingOpt, Places.WorkspaceBase;
    NothingCascades(key, defaults);
    assert [] + u == u && u + w + [] == u + w;
    if p.user.Some? { FileDecides([], p.user.value, read, key, defaults); }
    FileDecides(u, p.WorkspaceBase(), read, key, defaults);
    FileDecides(u + w, p.repo, read, key, defaults);
  }

  /** A setting that no file adds to comes from the repo's file, else the workspace's (the repo's
      own where there is none), else the user's. A lookup for a folder asks that folder's file if it is one of the workspace's
      folders; a lookup for none asks the one folder there is, unless a workspace file is open. */
  lemma LookupPrecedence(p: Places, lookup: Lookup, read: string -> File, key: string, defaults: string -> Value)
    requires lookup.AsksFor(p)
    requires AddsNothing(read, p.repo, key) && AddsNothing(read, p.WorkspaceBase(), key)
    requires p.user.Some? ==> AddsNothing(read, p.user.value, key)
    ensures var asksRepo := if lookup.root.Some? then p.repo in lookup.folders
                            else !lookup.workspaceFile && lookup.folders == [p.repo];
            ResolveSettingOpt(p, lookup.RepoLayer(), read, key, defaults) ==
            if asksRepo && Own(read, p.repo, key).Some? then Own(read, p.repo, key)
            else if p.workspaceDir.Some? && Own(read, p.workspaceDir.value, key).Some? then Own(read, p.workspaceDir.value, key)
            else if p.workspaceDir == None && Own(read, p.repo, key).Some? then Own(read, p.repo, key)
            else if p.user.Some? then Own(read, p.user.value, key) else None
  {
    hide Own, AddsNothing, ResolveSettingOpt, Lookup.RepoLayer, Lookup.AsksFor;
    AskedLayer(p, lookup);
    FoldPrecedence(p, lookup.RepoLayer(), read, key, defaults);
  }
}
