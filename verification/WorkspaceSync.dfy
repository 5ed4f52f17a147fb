/**
  `_prune` and `sync_workspace` as methods that change a file tree in place: one recursive call per
  directory on the way to an allowed path, one deletion per unwanted entry, then the two loops.
*/
module WorkspaceSync {
  import opened Common
  import opened WorkspaceTree
  import opened WorkspaceResult

  const WORKSPACE_DIRS: seq<Path> := [["adarevm"], ["adarelib"], ["adare", "appdata"], ["skills"]]

  const WORKSPACE_FILES: seq<Path> := [
    ["pyproject.toml"],
    ["uv.lock"],
    ["README.md"],
    ["adare", "pyproject.toml"],
    ["adare-cv-server", "pyproject.toml"]
  ]

  /** How long the listed paths with a given first component are. */
  function ListedDepth(first: string): nat { if first == "adare" || first == "adare-cv-server" then 2 else 1 }

  lemma ListedPaths()
    ensures forall i :: 0 <= i < |WORKSPACE_DIRS| ==>
              |WORKSPACE_DIRS[i]| == ListedDepth(WORKSPACE_DIRS[i][0])
    ensures forall i :: 0 <= i < |WORKSPACE_FILES| ==>
              |WORKSPACE_FILES[i]| == ListedDepth(WORKSPACE_FILES[i][0])
  {
    assert |"adare"| == 5 && |"adare-cv-server"| == 15;
    assert |"adarevm"| == 7 && |"adarelib"| == 8 && |"skills"| == 6;
    assert |"pyproject.toml"| == 14 && |"uv.lock"| == 7 && |"README.md"| == 9;
  }

  /** The number of components and their lengths tell listed paths apart. */
  lemma ListedDistinct()
    ensures NoRepeats(WORKSPACE_DIRS) && NoRepeats(WORKSPACE_FILES)
  {
    var d, f := WORKSPACE_DIRS, WORKSPACE_FILES;
    assert |d[0][0]| == 7 && |d[1][0]| == 8 && |d[2]| == 2 && |d[3][0]| == 6;
    assert |f[0][0]| == 14 && |f[1][0]| == 7 && |f[2][0]| == 9 && |f[3][0]| == 5 && |f[4][0]| == 15;
    assert |f[0]| == 1 && |f[1]| == 1 && |f[2]| == 1 && |f[3]| == 2 && |f[4]| == 2;
  }

  lemma ListedApart()
    ensures forall i, j :: 0 <= i < |WORKSPACE_DIRS| && 0 <= j < |WORKSPACE_FILES| ==>
              WORKSPACE_DIRS[i] != WORKSPACE_FILES[j]
  {
    var d, f := WORKSPACE_DIRS, WORKSPACE_FILES;
    assert d[0][0][0] == 'a' && d[1][0][0] == 'a' && d[2][1][0] == 'a' && d[3][0][0] == 's';
    assert f[0][0][0] == 'p' && f[1][0][0] == 'u' && f[2][0][0] == 'R' && f[3][1][0] == 'p' && f[4][1][0] == 'p';
    assert |d[0]| == |d[1]| == |d[3]| == 1 && |d[2]| == 2;
    assert |f[0]| == |f[1]| == |f[2]| == 1 && |f[3]| == |f[4]| == 2;
  }

  /** The allow list in use has no nested paths, so every theorem about the sync applies to it. */
  lemma WorkspaceListIsAllowList()
    ensures AllowList(WORKSPACE_DIRS, WORKSPACE_FILES) && [] !in WORKSPACE_FILES
  {
    hide ListedDepth;
    ListedPaths();
    ListedDistinct();
    ListedApart();
    var d, f := WORKSPACE_DIRS, WORKSPACE_FILES;
    var allowed := Paths(d) + Paths(f);
    forall a | a in allowed
      ensures a != [] && |a| == ListedDepth(a[0])
    {
    }
    forall a, b | a in allowed && b in allowed && a <= b
      ensures a == b
    {
      assert a[0] == b[0];
    }
  }

  // ---------- One level of pruning ----------

  /** The tree with the entries `done` of the directory `prefix` pruned. */
  ghost function PrunedNames(t: Tree, allowed: set<Path>, prefix: Path, done: set<string>): Tree {
    map p | p in t && (!(prefix < p && p[|prefix|] in done) || Keeps(t, allowed, p)) :: t[p]
  }

  lemma KeepsParent(t: Tree, allowed: set<Path>, p: Path)
    requires WellFormed(t) && p in t && p != [] && Keeps(t, allowed, p)
    ensures Keeps(t, allowed, Parent(p))
  {
    var q := Parent(p);
    if q != [] {
      AncestorsClosed(allowed, p, q);
      if Under(allowed, p) {
        UnderOrAbove(allowed, q, p);
      }
    }
  }

  lemma NamesWellFormed(t: Tree, allowed: set<Path>, prefix: Path, done: set<string>)
    requires WellFormed(t)
    ensures WellFormed(PrunedNames(t, allowed, prefix, done))
  {
    hide Keeps;
    var t' := PrunedNames(t, allowed, prefix, done);
    RootKept(t, allowed);
    forall p | p in t' && p != []
      ensures Look(t', Parent(p)) == Some(Directory)
    {
      if Keeps(t, allowed, p) {
        KeepsParent(t, allowed, p);
      }
    }
  }

  lemma RootKept(t: Tree, allowed: set<Path>)
    ensures Keeps(t, allowed, [])
  {
  }

  lemma BelowName(prefix: Path, n: string, p: Path)
    ensures prefix + [n] <= p <==> prefix < p && p[|prefix|] == n
  {
    if prefix < p && p[|prefix|] == n {
      assert p[..|prefix| + 1] == prefix + [n];
    }
  }

  /** An allowed entry keeps everything below it. */
  lemma AllowedName(t: Tree, allowed: set<Path>, prefix: Path, done: set<string>, n: string)
    requires prefix + [n] in allowed
    ensures PrunedNames(t, allowed, prefix, done + {n}) == PrunedNames(t, allowed, prefix, done)
  {
    forall p | prefix < p && p[|prefix|] == n
      ensures Keeps(t, allowed, p)
    {
      BelowName(prefix, n, p);
    }
  }

  /** A directory on the way is pruned in turn. */
  lemma DirectoryOnTheWay(t: Tree, allowed: set<Path>, prefix: Path, done: set<string>, n: string)
    requires prefix + [n] in Ancestors(allowed) && Look(t, prefix + [n]) == Some(Directory) && n !in done
    ensures Pruned(PrunedNames(t, allowed, prefix, done), allowed, prefix + [n]) ==
            PrunedNames(t, allowed, prefix, done + {n})
  {
    var t1 := PrunedNames(t, allowed, prefix, done);
    forall p | p in t
      ensures prefix + [n] < p ==> p in t1 && (Keeps(t1, allowed, p) <==> Keeps(t, allowed, p))
      ensures prefix + [n] <= p <==> prefix < p && p[|prefix|] == n
    {
      BelowName(prefix, n, p);
    }
    assert Keeps(t, allowed, prefix + [n]);
    forall p | p in t && prefix + [n] <= p && !(prefix + [n] < p)
      ensures p == prefix + [n]
    {
    }
  }

  /** Any other entry goes, with everything below it. */
  lemma OtherName(t: Tree, allowed: set<Path>, prefix: Path, done: set<string>, n: string)
    requires WellFormed(t) && prefix + [n] !in allowed && !Under(allowed, prefix)
    requires !(prefix + [n] in Ancestors(allowed) && Look(t, prefix + [n]) == Some(Directory))
    ensures Removed(PrunedNames(t, allowed, prefix, done), prefix + [n]) == PrunedNames(t, allowed, prefix, done + {n})
  {
    hide Keeps, WellFormed;
    var rel := prefix + [n];
    NotUnder(allowed, prefix, n);
    forall p | p in t && rel <= p
      ensures !Keeps(t, allowed, p)
    {
      NothingKeptBelow(t, allowed, rel, p);
    }
    forall p
      ensures rel <= p <==> prefix < p && p[|prefix|] == n
    {
      BelowName(prefix, n, p);
    }
  }

  lemma NotUnder(allowed: set<Path>, prefix: Path, n: string)
    requires prefix + [n] !in allowed && !Under(allowed, prefix)
    ensures !Under(allowed, prefix + [n])
  {
    var rel := prefix + [n];
    forall a | a in allowed && a <= rel
      ensures a <= prefix || a == rel
    {
    }
  }

  lemma NoNames(t: Tree, allowed: set<Path>, prefix: Path)
    ensures PrunedNames(t, allowed, prefix, {}) == t
  {
  }

  /** The names of the entries of a directory. */
  function Names(t: Tree, prefix: Path): set<string> {
    set p | p in t && prefix < p && |p| == |prefix| + 1 :: p[|prefix|]
  }

  lemma AllNames(t: Tree, allowed: set<Path>, prefix: Path)
    requires WellFormed(t)
    ensures PrunedNames(t, allowed, prefix, Names(t, prefix)) == Pruned(t, allowed, prefix)
  {
    forall p | p in t && prefix < p
      ensures p[|prefix|] in Names(t, prefix)
    {
      var child := p[..|prefix| + 1];
      if child != p {
        PrefixesAreDirectories(t, p, child);
      }
      assert child in t && prefix < child;
    }
  }

  ghost function Below(t: Tree, prefix: Path): set<Path> { set p | p in t && prefix < p }

  lemma SmallerBelow(t: Tree, t1: Tree, prefix: Path, rel: Path)
    requires t1.Keys <= t.Keys && prefix < rel && rel in t
    ensures |Below(t1, rel)| < |Below(t, prefix)|
  {
    var a, b := Below(t1, rel), Below(t, prefix);
    assert a <= b - {rel};
    assert |b - {rel}| == |b| - 1;
    assert b - {rel} == a + (b - {rel} - a);
  }

  // ---------- The code ----------

  class Destination {
    var tree: Tree

    constructor (tree: Tree)
      ensures this.tree == tree
    {
      this.tree := tree;
    }

    /**
      `_remove`: `rmtree` takes a real directory with all its content, `unlink` anything else by
      itself.  Either way the path and all below it are gone, the rest is untouched, and the tree
      stays well formed.
    */
    method Remove(path: Path)
      requires WellFormed(tree) && path in tree && path != []
      modifies this
      ensures forall p :: Look(tree, p) == if path <= p then None else Look(old(tree), p)
      ensures WellFormed(tree)
      ensures tree == Removed(old(tree), path)
    {
      RemovedWellFormed(tree, path);
      if tree[path] == Directory {
        tree := map p | p in tree && !(path <= p) :: tree[p];
      } else {
        UnlinkRemovesAll(tree, path);
        tree := tree - {path};
      }
    }

    method Prune(prefix: Path, allowed: set<Path>, ancestors: set<Path>)
      requires WellFormed(tree) && ancestors == Ancestors(allowed) && !Under(allowed, prefix)
      modifies this
      ensures tree == Pruned(old(tree), allowed, prefix)
      decreases |Below(tree, prefix)|
    {
      hide WellFormed, Keeps, Under, Pruned, Removed, Below, Look;
      ghost var t := tree;
      var todo := Names(tree, prefix);
      ghost var done: set<string> := {};
      NoNames(t, allowed, prefix);
      while todo != {}
        invariant done !! todo && done + todo == Names(t, prefix)
        invariant tree == PrunedNames(t, allowed, prefix, done)
        decreases |todo|
      {
        var n :| n in todo;
        var rel := prefix + [n];
        NamesWellFormed(t, allowed, prefix, done);
        NameLook(t, allowed, prefix, done, n);
        if rel in allowed {
          AllowedName(t, allowed, prefix, done, n);
        } else {
          NotUnder(allowed, prefix, n);
          if rel in ancestors && tree[rel] == Directory {
            SmallerBelow(t, tree, prefix, rel);
            DirectoryOnTheWay(t, allowed, prefix, done, n);
            Prune(rel, allowed, ancestors);
          } else {
            OtherName(t, allowed, prefix, done, n);
            assert rel != [];
            Remove(rel);
          }
        }
        todo, done := todo - {n}, done + {n};
      }
      assert done == Names(t, prefix);
      AllNames(t, allowed, prefix);
    }

    /** One round of the first loop; `ok` is false when `copytree` finds its target still there. */
    method SyncOneDirectory(src: Tree, rel: Path, ignored: Ignore) returns (ok: bool)
      requires WellFormed(tree) && WellFormed(src) && rel != [] && ClearAbove(tree, rel)
      modifies this
      ensures ok <==> SyncDirectory(old(tree), src, rel, ignored).Some?
      ensures ok ==> tree == SyncDirectory(old(tree), src, rel, ignored).value && WellFormed(tree)
    {
      hide WellFormed, ClearAbove, Removed, MakeParents, Subtree;
      ghost var before := tree;
      if SyncDirectory(before, src, rel, ignored).Some? {
        RoundKeepsWellFormed(before, src, rel, ignored);
      }
      var target := Look(tree, rel);
      if target != None && target != Some(Symlink(Dangling)) {
        Remove(rel);
      }
      if Look(src, rel) == Some(Directory) {
        if rel in tree {
          return false;
        }
        tree := MakeParents(tree, rel) + Subtree(src, rel, ignored);
      }
      return true;
    }

    /** One round of the second loop; `ok` is false when the file would have to replace a directory. */
    method SyncOneFile(src: Tree, rel: Path) returns (ok: bool)
      requires rel != []
      modifies this
      ensures ok <==> SyncFile(old(tree), src, rel).Some?
      ensures ok ==> tree == SyncFile(old(tree), src, rel).value
    {
      if rel in src && src[rel].File? {
        var copied := Copy2(MakeParents(tree, rel), rel, src[rel].content);
        if copied == None {
          return false;
        }
        tree := copied.value;
      }
      return true;
    }

    /** The first loop. */
    method SyncAllDirectories(src: Tree, dirs: seq<Path>, files: seq<Path>, ignored: Ignore) returns (ok: bool)
      requires WellFormed(tree) && WellFormed(src) && AllowList(dirs, files)
      requires forall d :: d in dirs ==> ClearAbove(tree, d)
      modifies this
      ensures ok <==> SyncDirectories(old(tree), src, dirs, ignored).Some?
      ensures ok ==> tree == SyncDirectories(old(tree), src, dirs, ignored).value
    {
      hide SyncDirectory, WellFormed, ClearAbove, AllowList;
      ghost var pruned := tree;
      for i := 0 to |dirs|
        invariant SyncDirectories(pruned, src, dirs[..i], ignored) == Some(tree) && WellFormed(tree)
      {
        assert dirs[..i + 1][..i] == dirs[..i];
        StillClear(pruned, src, dirs, files, ignored, i);
        var done := SyncOneDirectory(src, dirs[i], ignored);
        if !done {
          DirectoriesFail(pruned, src, dirs, ignored, i + 1);
          return false;
        }
      }
      assert dirs[..|dirs|] == dirs;
      return true;
    }

    /** The second loop. */
    method SyncAllFiles(src: Tree, files: seq<Path>) returns (ok: bool)
      requires [] !in files
      modifies this
      ensures ok <==> SyncFiles(old(tree), src, files).Some?
      ensures ok ==> tree == SyncFiles(old(tree), src, files).value
    {
      hide SyncFile;
      ghost var copied := tree;
      for i := 0 to |files|
        invariant [] !in files[..i]
        invariant SyncFiles(copied, src, files[..i]) == Some(tree)
      {
        assert files[..i + 1][..i] == files[..i];
        assert files[i] in files && [] !in files[..i + 1];
        var done := SyncOneFile(src, files[i]);
        if !done {
          FilesFail(copied, src, files, i + 1);
          return false;
        }
      }
      assert files[..|files|] == files;
      return true;
    }

    /**
      Prune, then copy directories, then files.  The result is the tree characterised in
      WorkspaceResult; it mirrors the source exactly for destinations that were clean, and reads
      like the source exactly for readable ones.
    */
    method SyncWorkspace(src: Tree, dirs: seq<Path>, files: seq<Path>, ignored: Ignore) returns (ok: bool)
      requires WellFormed(tree) && WellFormed(src) && AllowList(dirs, files) && [] !in files
      modifies this
      ensures ok <==> SyncTree(old(tree), src, dirs, files, ignored).Some?
      ensures ok ==> tree == SyncTree(old(tree), src, dirs, files, ignored).value
      ensures (ok && Promise(tree, src, dirs, files, ignored)) <==> Clean(old(tree), src, dirs, files)
      ensures (ok && ReadPromise(tree, src, dirs, files, ignored)) <==> Readable(old(tree), src, dirs, files)
    {
      hide SyncDirectories, SyncFiles, Promise, ReadPromise, Clean, Readable, Pruned, WellFormed, AllowList, ClearAbove;
      PromiseKeptIffClean(tree, src, dirs, files, ignored);
      ReadPromiseKeptIffReadable(tree, src, dirs, files, ignored);
      var allowed := Paths(dirs) + Paths(files);
      PrunedStart(tree, dirs, files);
      Prune([], allowed, Ancestors(allowed));
      ok := SyncAllDirectories(src, dirs, files, ignored);
      if ok {
        ok := SyncAllFiles(src, files);
      }
    }
  }

  lemma RemovedWellFormed(t: Tree, path: Path)
    requires WellFormed(t) && path != []
    ensures WellFormed(Removed(t, path))
  {
    forall p | p in Removed(t, path) && p != []
      ensures Look(Removed(t, path), Parent(p)) == Some(Directory)
    {
    }
  }

  /** Nothing lies below an entry that is no real directory. */
  lemma UnlinkRemovesAll(t: Tree, path: Path)
    requires WellFormed(t) && path in t && t[path] != Directory
    ensures t - {path} == Removed(t, path)
  {
    forall p | p in t && path <= p
      ensures p == path
    {
      if path < p {
        PrefixesAreDirectories(t, p, path);
      }
    }
  }

  /** After pruning the tree is well formed and the way to every allowed path is clear. */
  lemma PrunedStart(t: Tree, dirs: seq<Path>, files: seq<Path>)
    requires WellFormed(t) && AllowList(dirs, files)
    ensures var allowed := Paths(dirs) + Paths(files);
            && !Under(allowed, []) && WellFormed(Pruned(t, allowed, []))
            && forall d :: d in dirs ==> ClearAbove(Pruned(t, allowed, []), d)
  {
    hide Pruned, ClearAbove;
    var allowed := Paths(dirs) + Paths(files);
    RootNotUnder(dirs, files);
    PruningIsExact(t, allowed);
    ListFacts(dirs, files);
    forall d | d in dirs
      ensures ClearAbove(Pruned(t, allowed, []), d)
    {
      AllowedInPruned(t, allowed, d);
    }
  }

  lemma StillClear(t: Tree, src: Tree, dirs: seq<Path>, files: seq<Path>, ignored: Ignore, i: nat)
    requires AllowList(dirs, files) && i < |dirs| && (forall d :: d in dirs ==> ClearAbove(t, d))
    requires SyncDirectories(t, src, dirs[..i], ignored).Some?
    ensures ClearAbove(SyncDirectories(t, src, dirs[..i], ignored).value, dirs[i]) && dirs[i] != []
  {
    hide Apart, ClearAbove, SyncDirectories;
    ListFacts(dirs, files);
    assert dirs[i] in dirs;
    AllowedApart(dirs, files, dirs[i]);
    forall d | d in dirs[..i]
      ensures Apart(d, dirs[i])
    {
      var j :| 0 <= j < i && dirs[..i][j] == d;
      assert dirs[j] in dirs;
    }
    DirectoriesKeepClear(t, src, dirs[..i], ignored, dirs[i]);
  }

  /** Two ordinary trees between which the sync fails, or leaves something that does not read like the source. */
  ghost predicate SyncGoesWrong(dst: Tree, src: Tree, ignored: Ignore) {
    ListedFilesNamed();
    var r := SyncTree(dst, src, WORKSPACE_DIRS, WORKSPACE_FILES, ignored);
    && WellFormed(dst) && WellFormed(src)
    && !(r.Some? && ReadPromise(r.value, src, WORKSPACE_DIRS, WORKSPACE_FILES, ignored))
  }

  lemma ListedFilesNamed()
    ensures [] !in WORKSPACE_FILES
  {
    WorkspaceListIsAllowList();
  }

  /**
    A dangling link at an allowed directory, or a directory or a link back to the source at an
    allowed file, and the sync does not do its job.
  */
  lemma ObstaclesInTheWay(ignored: Ignore)
    ensures SyncGoesWrong(map[[] := Directory, ["skills"] := Symlink(Dangling)],
                          map[[] := Directory, ["skills"] := Directory], ignored)
    ensures SyncGoesWrong(map[[] := Directory, ["uv.lock"] := Directory],
                          map[[] := Directory, ["uv.lock"] := File([1])], ignored)
    ensures SyncGoesWrong(map[[] := Directory, ["uv.lock"] := Symlink(ToSource)],
                          map[[] := Directory, ["uv.lock"] := File([1])], ignored)
  {
    hide SyncTree, ReadPromise, AllowList;
    WorkspaceListIsAllowList();
    var dst := map[[] := Directory, ["skills"] := Symlink(Dangling)];
    var src := map[[] := Directory, ["skills"] := Directory];
    assert WORKSPACE_DIRS[3] == ["skills"] && IsDangling(dst, ["skills"]);
    assert WellFormed(dst);
    ReadPromiseKeptIffReadable(dst, src, WORKSPACE_DIRS, WORKSPACE_FILES, ignored);
    ObstacleAtFile(Directory, ignored);
    ObstacleAtFile(Symlink(ToSource), ignored);
  }

  lemma ObstacleAtFile(obstacle: Entry, ignored: Ignore)
    requires obstacle == Directory || obstacle == Symlink(ToSource)
    ensures SyncGoesWrong(map[[] := Directory, ["uv.lock"] := obstacle],
                          map[[] := Directory, ["uv.lock"] := File([1])], ignored)
  {
    hide SyncTree, ReadPromise, AllowList;
    WorkspaceListIsAllowList();
    var dst := map[[] := Directory, ["uv.lock"] := obstacle];
    var src := map[[] := Directory, ["uv.lock"] := File([1])];
    assert WORKSPACE_FILES[1] == ["uv.lock"] && SuppliesFile(src, ["uv.lock"]) && InTheWay(dst, ["uv.lock"]);
    assert WellFormed(dst);
    ReadPromiseKeptIffReadable(dst, src, WORKSPACE_DIRS, WORKSPACE_FILES, ignored);
  }

  lemma NameLook(t: Tree, allowed: set<Path>, prefix: Path, done: set<string>, n: string)
    requires n in Names(t, prefix) && n !in done
    ensures var t1 := PrunedNames(t, allowed, prefix, done);
            && t1.Keys <= t.Keys && prefix + [n] in t1 && prefix + [n] in t
            && Look(t, prefix + [n]) == Look(t1, prefix + [n]) == Some(t1[prefix + [n]])
            && prefix < prefix + [n]
  {
    var p :| p in t && prefix < p && |p| == |prefix| + 1 && p[|prefix|] == n;
    assert p == prefix + [n];
  }

  lemma RootNotUnder(dirs: seq<Path>, files: seq<Path>)
    requires AllowList(dirs, files)
    ensures !Under(Paths(dirs) + Paths(files), [])
  {
  }

  /** Once the first loop has failed it stays failed. */
  lemma {:induction false} DirectoriesFail(t: Tree, src: Tree, dirs: seq<Path>, ignored: Ignore, i: nat)
    requires i <= |dirs| && SyncDirectories(t, src, dirs[..i], ignored) == None
    ensures SyncDirectories(t, src, dirs, ignored) == None
    decreases |dirs|
  {
    hide SyncDirectory;
    if i == |dirs| {
      assert dirs[..i] == dirs;
    } else {
      assert dirs[..|dirs| - 1][..i] == dirs[..i];
      DirectoriesFail(t, src, dirs[..|dirs| - 1], ignored, i);
    }
  }

  lemma {:induction false} FilesFail(t: Tree, src: Tree, files: seq<Path>, i: nat)
    requires i <= |files| && [] !in files && SyncFiles(t, src, files[..i]) == None
    ensures SyncFiles(t, src, files) == None
    decreases |files|
  {
    hide SyncFile;
    if i == |files| {
      assert files[..i] == files;
    } else {
      assert files[..|files| - 1][..i] == files[..i];
      FilesFail(t, src, files[..|files| - 1], i);
    }
  }
}
