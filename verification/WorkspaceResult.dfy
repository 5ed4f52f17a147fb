/** What a whole run of `sync_workspace` leaves behind, for any allow list whose paths are not nested. */
module WorkspaceResult {
  import opened Common
  import opened WorkspaceTree

  function Paths(s: seq<Path>): set<Path> { set p | p in s }

  ghost predicate NoRepeats(s: seq<Path>) { forall i, j :: 0 <= i < j < |s| ==> s[i] != s[j] }

  /** An allow list: no path occurs twice or lies below another one. */
  ghost predicate AllowList(dirs: seq<Path>, files: seq<Path>) {
    && PrefixFree(Paths(dirs) + Paths(files)) && Paths(dirs) !! Paths(files)
    && NoRepeats(dirs) && NoRepeats(files)
  }

  // ---------- The run ----------

  ghost function SyncDirectories(t: Tree, src: Tree, dirs: seq<Path>, ignored: Ignore): Option<Tree> {
    if |dirs| == 0 then Some(t)
    else
      var r := SyncDirectories(t, src, dirs[..|dirs| - 1], ignored);
      if r == None then None else SyncDirectory(r.value, src, dirs[|dirs| - 1], ignored)
  }

  ghost function SyncFiles(t: Tree, src: Tree, files: seq<Path>): Option<Tree>
    requires [] !in files
  {
    if |files| == 0 then Some(t)
    else
      var r := SyncFiles(t, src, files[..|files| - 1]);
      if r == None then None else SyncFile(r.value, src, files[|files| - 1])
  }

  ghost function SyncTree(dst: Tree, src: Tree, dirs: seq<Path>, files: seq<Path>, ignored: Ignore): Option<Tree>
    requires [] !in files
  {
    var r := SyncDirectories(Pruned(dst, Paths(dirs) + Paths(files), []), src, dirs, ignored);
    if r == None then None else SyncFiles(r.value, src, files)
  }

  // ---------- What it should leave ----------

  ghost predicate FromSource(src: Tree, dirs: set<Path>, ignored: Ignore, p: Path) {
    exists d :: d in dirs && d <= p && SuppliesDirectory(src, d) && NotIgnored(p, |d|, ignored)
  }

  ghost predicate AboveDirectory(src: Tree, dirs: set<Path>, p: Path) {
    exists d :: d in dirs && p < d && SuppliesDirectory(src, d)
  }

  ghost predicate AboveFile(src: Tree, files: set<Path>, p: Path) {
    exists f :: f in files && p < f && SuppliesFile(src, f)
  }

  ghost function AfterDirectories(before: Option<Entry>, src: Tree, dirs: set<Path>, ignored: Ignore, p: Path)
    : Option<Entry>
  {
    if Under(dirs, p) then if FromSource(src, dirs, ignored, p) then Look(src, p) else None
    else if AboveDirectory(src, dirs, p) then Some(Directory)
    else before
  }

  ghost function AfterFiles(before: Option<Entry>, src: Tree, files: set<Path>, p: Path): Option<Entry> {
    if p in files && SuppliesFile(src, p) then Look(src, p)
    else if AboveFile(src, files, p) then Some(Directory)
    else before
  }

  /**
    The entry at `p` after a sync: source content where it is allowed, directories on the way, and
    what pruning left.
  */
  ghost function Wanted(dst: Tree, src: Tree, dirs: seq<Path>, files: seq<Path>, ignored: Ignore, p: Path)
    : Option<Entry>
  {
    AfterFiles(AfterDirectories(Look(Pruned(dst, Paths(dirs) + Paths(files), []), p), src, Paths(dirs), ignored, p),
               src, Paths(files), p)
  }

  /** No dangling link at an allowed directory, and nothing but a plain file where a file is to go. */
  ghost predicate Clean(dst: Tree, src: Tree, dirs: seq<Path>, files: seq<Path>) {
    && (forall d :: d in dirs ==> !IsDangling(dst, d))
    && (forall f :: f in files && SuppliesFile(src, f) && f in dst ==> dst[f].File?)
  }

  // ---------- The first loop ----------

  lemma Comparable(a: Path, b: Path, p: Path)
    requires a <= p && b <= p
    ensures a <= b || b <= a
  {
    if |a| <= |b| {
      assert a == b[..|a|];
    } else {
      assert b == a[..|b|];
    }
  }

  /** Allowed paths do not get in each other's way. */
  lemma Separate(others: set<Path>, d: Path, p: Path)
    requires PrefixFree(others + {d}) && d !in others
    ensures d <= p ==> !Under(others, p) && forall e :: e in others ==> !(p < e)
    ensures p < d ==> !Under(others, p)
  {
    forall e | e in others
      ensures d <= p ==> !(e <= p) && !(p < e)
      ensures p < d ==> !(e <= p)
    {
      assert e in others + {d} && d in others + {d};
      if d <= p && e <= p {
        Comparable(d, e, p);
      }
    }
  }

  ghost predicate Ready(t: Tree, d: Path) { ClearAbove(t, d) && ClearBelow(t, d) && !IsDangling(t, d) }

  ghost predicate DirectoriesDone(r: Tree, t: Tree, src: Tree, dirs: set<Path>, ignored: Ignore) {
    forall p :: Look(r, p) == AfterDirectories(Look(t, p), src, dirs, ignored, p)
  }

  lemma StillReady(r: Tree, t: Tree, src: Tree, dirs: set<Path>, ignored: Ignore, d: Path)
    requires DirectoriesDone(r, t, src, dirs, ignored) && Ready(t, d)
    requires PrefixFree(dirs + {d}) && d !in dirs
    ensures Ready(r, d)
  {
    hide FromSource;
    forall p
      ensures d <= p ==> Look(r, p) == Look(t, p)
      ensures p < d ==> Look(r, p) == Look(t, p) || Look(r, p) == Some(Directory)
    {
      Separate(dirs, d, p);
    }
    assert Look(r, d) == Look(t, d);
    forall p | p in r && p < d
      ensures r[p] == Directory
    {
      assert Look(r, p) == Look(t, p) || Look(r, p) == Some(Directory);
    }
    if d !in r {
      forall p | p in r
        ensures !(d <= p)
      {
        assert d <= p ==> Look(r, p) == Look(t, p);
      }
    }
  }

  lemma OneMoreDirectory(r: Tree, t: Tree, src: Tree, dirs: set<Path>, ignored: Ignore, d: Path)
    requires DirectoriesDone(r, t, src, dirs, ignored) && Ready(t, d)
    requires PrefixFree(dirs + {d}) && d !in dirs
    ensures SyncDirectory(r, src, d, ignored).Some?
    ensures DirectoriesDone(SyncDirectory(r, src, d, ignored).value, t, src, dirs + {d}, ignored)
  {
    hide SyncDirectory, NotIgnored, Ready;
    StillReady(r, t, src, dirs, ignored, d);
    assert ClearAbove(r, d) && ClearBelow(r, d) && !IsDangling(r, d) by { ReadyParts(r, d); }
    SyncDirectoryLook(r, src, d, ignored, d);
    var r' := SyncDirectory(r, src, d, ignored).value;
    forall p
      ensures Look(r', p) == AfterDirectories(Look(t, p), src, dirs + {d}, ignored, p)
    {
      SyncDirectoryLook(r, src, d, ignored, p);
      Separate(dirs, d, p);
      AddedDirectory(Look(t, p), src, dirs, ignored, d, p);
    }
  }

  lemma ReadyParts(r: Tree, d: Path)
    requires Ready(r, d)
    ensures ClearAbove(r, d) && ClearBelow(r, d) && !IsDangling(r, d)
  {
  }

  lemma AddedDirectory(before: Option<Entry>, src: Tree, dirs: set<Path>, ignored: Ignore, d: Path, p: Path)
    requires d <= p ==> !Under(dirs, p) && forall e :: e in dirs ==> !(p < e)
    requires p < d ==> !Under(dirs, p)
    ensures AfterDirectories(before, src, dirs + {d}, ignored, p) ==
            if d <= p then
              if SuppliesDirectory(src, d) && NotIgnored(p, |d|, ignored) then Look(src, p) else None
            else if p < d && SuppliesDirectory(src, d) then Some(Directory)
            else AfterDirectories(before, src, dirs, ignored, p)
  {
    hide NotIgnored;
    assert Under(dirs + {d}, p) <==> Under(dirs, p) || d <= p;
    assert AboveDirectory(src, dirs + {d}, p) <==> AboveDirectory(src, dirs, p) || (p < d && SuppliesDirectory(src, d));
    if d <= p {
      assert FromSource(src, dirs + {d}, ignored, p) <==> SuppliesDirectory(src, d) && NotIgnored(p, |d|, ignored);
    } else {
      assert FromSource(src, dirs + {d}, ignored, p) <==> FromSource(src, dirs, ignored, p);
    }
  }

  lemma SplitLast(s: seq<Path>)
    requires |s| != 0 && NoRepeats(s)
    ensures Paths(s) == Paths(s[..|s| - 1]) + {s[|s| - 1]} && s[|s| - 1] !in Paths(s[..|s| - 1])
    ensures NoRepeats(s[..|s| - 1])
  {
    assert s == s[..|s| - 1] + [s[|s| - 1]];
  }

  lemma {:induction false} AllDirectories(t: Tree, src: Tree, dirs: seq<Path>, ignored: Ignore)
    requires PrefixFree(Paths(dirs)) && NoRepeats(dirs) && forall d :: d in dirs ==> Ready(t, d)
    ensures SyncDirectories(t, src, dirs, ignored).Some?
    ensures DirectoriesDone(SyncDirectories(t, src, dirs, ignored).value, t, src, Paths(dirs), ignored)
  {
    hide Ready, SyncDirectory, DirectoriesDone;
    if |dirs| == 0 {
      NoDirectories(t, src, ignored);
      assert Paths(dirs) == {};
    } else {
      var init, d := dirs[..|dirs| - 1], dirs[|dirs| - 1];
      SplitLast(dirs);
      assert d in dirs;
      AllDirectories(t, src, init, ignored);
      OneMoreDirectory(SyncDirectories(t, src, init, ignored).value, t, src, Paths(init), ignored, d);
    }
  }

  lemma NoDirectories(t: Tree, src: Tree, ignored: Ignore)
    ensures DirectoriesDone(t, t, src, {}, ignored)
  {
  }

  // ---------- The second loop ----------

  ghost predicate Plain(t: Tree, src: Tree, f: Path) {
    f != [] && ClearAbove(t, f) && (SuppliesFile(src, f) && f in t ==> t[f].File?)
  }

  ghost predicate FilesDone(r: Tree, t: Tree, src: Tree, files: set<Path>) {
    forall p :: Look(r, p) == AfterFiles(Look(t, p), src, files, p)
  }

  lemma StillPlain(r: Tree, t: Tree, src: Tree, files: set<Path>, f: Path)
    requires FilesDone(r, t, src, files) && Plain(t, src, f)
    requires PrefixFree(files + {f}) && f !in files
    ensures Plain(r, src, f)
  {
    forall p
      ensures p <= f ==> Look(r, p) == Look(t, p) || (p < f && Look(r, p) == Some(Directory))
    {
      Separate(files, f, p);
      assert p in files ==> Under(files, p);
      if f <= p && p <= f {
        assert p == f;
      }
    }
    assert Look(r, f) == Look(t, f);
    forall p | p in r && p < f
      ensures r[p] == Directory
    {
      assert Look(r, p) == Look(t, p) || Look(r, p) == Some(Directory);
    }
  }

  lemma OneMoreFile(r: Tree, t: Tree, src: Tree, files: set<Path>, f: Path)
    requires FilesDone(r, t, src, files) && Plain(t, src, f)
    requires PrefixFree(files + {f}) && f !in files
    ensures SyncFile(r, src, f).Some?
    ensures FilesDone(SyncFile(r, src, f).value, t, src, files + {f})
  {
    hide SyncFile;
    StillPlain(r, t, src, files, f);
    SyncFileLook(r, src, f, f);
    forall p
      ensures Look(SyncFile(r, src, f).value, p) == AfterFiles(Look(t, p), src, files + {f}, p)
    {
      SyncFileLook(r, src, f, p);
      Separate(files, f, p);
      assert p in files ==> Under(files, p);
      assert AboveFile(src, files + {f}, p) <==> AboveFile(src, files, p) || (p < f && SuppliesFile(src, f));
    }
  }

  lemma {:induction false} AllFiles(t: Tree, src: Tree, files: seq<Path>)
    requires PrefixFree(Paths(files)) && NoRepeats(files) && [] !in files && forall f :: f in files ==> Plain(t, src, f)
    ensures SyncFiles(t, src, files).Some?
    ensures FilesDone(SyncFiles(t, src, files).value, t, src, Paths(files))
  {
    hide Plain, SyncFile, FilesDone;
    if |files| == 0 {
      NoFiles(t, src);
      assert Paths(files) == {};
    } else {
      var init, f := files[..|files| - 1], files[|files| - 1];
      SplitLast(files);
      assert f in files;
      AllFiles(t, src, init);
      OneMoreFile(SyncFiles(t, src, init).value, t, src, Paths(init), f);
    }
  }

  lemma NoFiles(t: Tree, src: Tree)
    ensures FilesDone(t, t, src, {})
  {
  }

  // ---------- The whole run ----------

  lemma PrunedIsReady(dst: Tree, src: Tree, dirs: seq<Path>, files: seq<Path>, d: Path)
    requires WellFormed(dst) && AllowList(dirs, files) && Clean(dst, src, dirs, files) && d in dirs
    ensures Ready(Pruned(dst, Paths(dirs) + Paths(files), []), d)
  {
    var allowed := Paths(dirs) + Paths(files);
    AllowedInPruned(dst, allowed, d);
  }

  /** Pruning keeps allowed paths and clears the way to them. */
  lemma AllowedInPruned(dst: Tree, allowed: set<Path>, a: Path)
    requires WellFormed(dst) && PrefixFree(allowed) && a in allowed
    ensures var t := Pruned(dst, allowed, []);
            ClearAbove(t, a) && ClearBelow(t, a) && Look(t, a) == Look(dst, a)
  {
    var t := Pruned(dst, allowed, []);
    assert Under(allowed, a);
    forall p | p in t && p < a
      ensures t[p] == Directory
    {
      assert p != [] ==> Keeps(dst, allowed, p);
    }
    if a !in t {
      forall p | p in t
        ensures !(a <= p)
      {
        assert a <= p && |a| == |p| ==> a == p;
        if a < p {
          PrefixesAreDirectories(dst, p, a);
        }
      }
    }
  }

  lemma FilesFindPlain(dst: Tree, r: Tree, src: Tree, dirs: seq<Path>, files: seq<Path>, ignored: Ignore, f: Path)
    requires WellFormed(dst) && AllowList(dirs, files) && Clean(dst, src, dirs, files) && f in files
    requires DirectoriesDone(r, Pruned(dst, Paths(dirs) + Paths(files), []), src, Paths(dirs), ignored)
    ensures Plain(r, src, f)
  {
    hide FromSource;
    var allowed := Paths(dirs) + Paths(files);
    var t := Pruned(dst, allowed, []);
    AllowedInPruned(dst, allowed, f);
    assert f in allowed && f != [];
    assert PrefixFree(Paths(dirs) + {f}) by {
      assert Paths(dirs) + {f} <= allowed;
    }
    forall p | p in r && p < f
      ensures r[p] == Directory
    {
      Separate(Paths(dirs), f, p);
      assert Look(r, p) == Look(t, p) || Look(r, p) == Some(Directory);
    }
    Separate(Paths(dirs), f, f);
    assert Look(r, f) == Look(t, f);
  }

  /** Path by path, a sync of a clean tree leaves exactly what it should. */
  lemma SyncIsExact(dst: Tree, src: Tree, dirs: seq<Path>, files: seq<Path>, ignored: Ignore)
    requires WellFormed(dst) && AllowList(dirs, files) && [] !in files && Clean(dst, src, dirs, files)
    ensures SyncTree(dst, src, dirs, files, ignored).Some?
    ensures forall p ::
              Look(SyncTree(dst, src, dirs, files, ignored).value, p) == Wanted(dst, src, dirs, files, ignored, p)
  {
    hide SyncDirectory, SyncFile, Ready, Plain, Pruned, AfterDirectories, AfterFiles, WellFormed, Clean;
    var allowed := Paths(dirs) + Paths(files);
    var t := Pruned(dst, allowed, []);
    forall d | d in dirs
      ensures Ready(t, d)
    {
      PrunedIsReady(dst, src, dirs, files, d);
    }
    assert PrefixFree(Paths(dirs)) && PrefixFree(Paths(files));
    AllDirectories(t, src, dirs, ignored);
    var r := SyncDirectories(t, src, dirs, ignored).value;
    forall f | f in files
      ensures Plain(r, src, f)
    {
      FilesFindPlain(dst, r, src, dirs, files, ignored, f);
    }
    AllFiles(r, src, files);
  }

  /** The promise to users: allowed directories mirror the filtered source, and supplied files equal theirs. */
  ghost predicate Promise(t: Tree, src: Tree, dirs: seq<Path>, files: seq<Path>, ignored: Ignore) {
    && Mirrored(t, src, dirs, ignored)
    && (forall f :: f in files && SuppliesFile(src, f) ==> Look(t, f) == Look(src, f))
  }

  ghost predicate Mirrored(t: Tree, src: Tree, dirs: seq<Path>, ignored: Ignore) {
    forall d, p :: d in dirs && d <= p ==>
      Look(t, p) == if SuppliesDirectory(src, d) && NotIgnored(p, |d|, ignored) then Look(src, p) else None
  }

  /** The same promise to somebody who only reads the files, through links if need be. */
  ghost predicate ReadPromise(t: Tree, src: Tree, dirs: seq<Path>, files: seq<Path>, ignored: Ignore) {
    && Mirrored(t, src, dirs, ignored)
    && (forall f :: f in files && SuppliesFile(src, f) ==> Contents(t, src, f) == Some(src[f].content))
  }

  /** No dangling link at an allowed directory, and no directory or link back where a file is to go. */
  ghost predicate Readable(dst: Tree, src: Tree, dirs: seq<Path>, files: seq<Path>) {
    && (forall d :: d in dirs ==> !IsDangling(dst, d))
    && (forall f :: f in files && SuppliesFile(src, f) ==> !InTheWay(dst, f))
  }

  /** In an allow list, a path at or below an allowed directory meets no other allowed path. */
  lemma OnlyThisDirectory(dirs: seq<Path>, files: seq<Path>, d: Path, p: Path)
    requires AllowList(dirs, files) && d in dirs && d <= p
    ensures p !in Paths(files) && forall f :: f in files ==> !(p < f)
    ensures forall e :: e in dirs && e <= p ==> e == d
  {
    var allowed := Paths(dirs) + Paths(files);
    forall e | e in allowed
      ensures e <= p || p < e ==> e == d
    {
      assert d in allowed;
      if e <= p {
        Comparable(d, e, p);
      }
    }
    ListFacts(dirs, files);
    assert forall e :: e in dirs || e in files ==> e in allowed;
    assert p in files ==> p in allowed && p <= p;
  }

  lemma WantedAtDirectory(dst: Tree, src: Tree, dirs: seq<Path>, files: seq<Path>, ignored: Ignore, d: Path, p: Path)
    requires AllowList(dirs, files) && d in dirs && d <= p
    ensures Wanted(dst, src, dirs, files, ignored, p) ==
            if SuppliesDirectory(src, d) && NotIgnored(p, |d|, ignored) then Look(src, p) else None
  {
    hide NotIgnored, AllowList, AfterDirectories;
    OnlyThisDirectory(dirs, files, d, p);
    DirectoriesAt(Look(Pruned(dst, Paths(dirs) + Paths(files), []), p), src, dirs, files, ignored, d, p);
  }

  lemma CleanKeepsPromise(dst: Tree, src: Tree, dirs: seq<Path>, files: seq<Path>, ignored: Ignore)
    requires WellFormed(dst) && AllowList(dirs, files) && [] !in files && Clean(dst, src, dirs, files)
    ensures SyncTree(dst, src, dirs, files, ignored).Some?
    ensures Promise(SyncTree(dst, src, dirs, files, ignored).value, src, dirs, files, ignored)
  {
    hide SyncTree, NotIgnored, AllowList;
    SyncIsExact(dst, src, dirs, files, ignored);
    forall d, p | d in dirs && d <= p
      ensures Wanted(dst, src, dirs, files, ignored, p) ==
              if SuppliesDirectory(src, d) && NotIgnored(p, |d|, ignored) then Look(src, p) else None
    {
      WantedAtDirectory(dst, src, dirs, files, ignored, d, p);
    }
  }

  // ---------- Without cleanliness ----------

  ghost predicate Apart(a: Path, b: Path) { !(a <= b) && !(b <= a) }

  lemma DirectoryLeavesOthers(t: Tree, src: Tree, rel: Path, ignored: Ignore, q: Path)
    requires Apart(rel, q) && SyncDirectory(t, src, rel, ignored).Some?
    ensures Look(SyncDirectory(t, src, rel, ignored).value, q) == Look(t, q)
  {
    assert forall k :: 0 <= k < |rel| ==> rel[..k] <= rel;
  }

  lemma FileLeavesOthers(t: Tree, src: Tree, rel: Path, q: Path)
    requires rel != [] && Apart(rel, q) && SyncFile(t, src, rel).Some?
    ensures Look(SyncFile(t, src, rel).value, q) == Look(t, q)
  {
    assert forall k :: 0 <= k < |rel| ==> rel[..k] <= rel;
    assert rel <= rel + [rel[|rel| - 1]];
  }

  lemma {:induction false} DirectoriesLeaveOthers(t: Tree, src: Tree, dirs: seq<Path>, ignored: Ignore, q: Path)
    requires (forall d :: d in dirs ==> Apart(d, q)) && SyncDirectories(t, src, dirs, ignored).Some?
    ensures Look(SyncDirectories(t, src, dirs, ignored).value, q) == Look(t, q)
  {
    hide SyncDirectory, Apart;
    if |dirs| != 0 {
      var init, d := dirs[..|dirs| - 1], dirs[|dirs| - 1];
      assert d in dirs;
      DirectoriesLeaveOthers(t, src, init, ignored, q);
      DirectoryLeavesOthers(SyncDirectories(t, src, init, ignored).value, src, d, ignored, q);
    }
  }

  lemma {:induction false} FilesLeaveOthers(t: Tree, src: Tree, files: seq<Path>, q: Path)
    requires [] !in files && (forall f :: f in files ==> Apart(f, q)) && SyncFiles(t, src, files).Some?
    ensures Look(SyncFiles(t, src, files).value, q) == Look(t, q)
  {
    hide SyncFile, Apart;
    if |files| != 0 {
      var init, f := files[..|files| - 1], files[|files| - 1];
      assert f in files;
      FilesLeaveOthers(t, src, init, q);
      FileLeavesOthers(SyncFiles(t, src, init).value, src, f, q);
    }
  }

  /** A dangling link at an allowed directory survives the first loop, unless the loop fails. */
  lemma {:induction false} DanglingStays(t: Tree, src: Tree, dirs: seq<Path>, ignored: Ignore, d: Path)
    requires d in dirs && NoRepeats(dirs) && (forall e :: e in dirs && e != d ==> Apart(e, d))
    requires IsDangling(t, d) && SyncDirectories(t, src, dirs, ignored).Some?
    ensures IsDangling(SyncDirectories(t, src, dirs, ignored).value, d)
  {
    hide Apart;
    var init, last := dirs[..|dirs| - 1], dirs[|dirs| - 1];
    SplitLast(dirs);
    var r := SyncDirectories(t, src, init, ignored).value;
    if last == d {
      assert forall e :: e in init ==> e in Paths(init);
      DirectoriesLeaveOthers(t, src, init, ignored, d);
    } else {
      assert d in init && last in dirs;
      DanglingStays(t, src, init, ignored, d);
      DirectoryLeavesOthers(r, src, last, ignored, d);
    }
  }

  /** One round of the first loop clears the way to other allowed paths no less than before. */
  lemma DirectoryKeepsClear(t: Tree, src: Tree, rel: Path, ignored: Ignore, e: Path)
    requires Apart(rel, e) && ClearAbove(t, e) && SyncDirectory(t, src, rel, ignored).Some?
    ensures ClearAbove(SyncDirectory(t, src, rel, ignored).value, e)
  {
    var r := SyncDirectory(t, src, rel, ignored).value;
    forall p | p in r && p < e
      ensures r[p] == Directory
    {
    }
  }

  lemma {:induction false} DirectoriesKeepClear(t: Tree, src: Tree, dirs: seq<Path>, ignored: Ignore, e: Path)
    requires (forall d :: d in dirs ==> Apart(d, e)) && ClearAbove(t, e) && SyncDirectories(t, src, dirs, ignored).Some?
    ensures ClearAbove(SyncDirectories(t, src, dirs, ignored).value, e)
  {
    hide SyncDirectory, Apart, ClearAbove;
    if |dirs| != 0 {
      var init, d := dirs[..|dirs| - 1], dirs[|dirs| - 1];
      assert d in dirs;
      DirectoriesKeepClear(t, src, init, ignored, e);
      DirectoryKeepsClear(SyncDirectories(t, src, init, ignored).value, src, d, ignored, e);
    }
  }

  ghost predicate NotPlain(t: Tree, f: Path) { f in t && !t[f].File? }

  lemma CopyKeepsNotPlain(t: Tree, src: Tree, f: Path)
    requires f != [] && NotPlain(t, f) && SyncFile(t, src, f).Some?
    ensures NotPlain(SyncFile(t, src, f).value, f)
  {
    assert forall k :: 0 <= k < |f| ==> f[..k] != f;
    assert f + [f[|f| - 1]] != f;
  }

  /** Whatever is no plain file at an allowed file's place stays none. */
  lemma {:induction false} NotPlainStays(t: Tree, src: Tree, files: seq<Path>, f: Path)
    requires f in files && [] !in files && NoRepeats(files) && (forall e :: e in files && e != f ==> Apart(e, f))
    requires NotPlain(t, f) && SyncFiles(t, src, files).Some?
    ensures NotPlain(SyncFiles(t, src, files).value, f)
  {
    hide SyncFile, Apart;
    var init, last := files[..|files| - 1], files[|files| - 1];
    SplitLast(files);
    var r := SyncFiles(t, src, init).value;
    assert last in files;
    if last == f {
      assert forall e :: e in init ==> e in Paths(init);
      FilesLeaveOthers(t, src, init, f);
      CopyKeepsNotPlain(r, src, f);
    } else {
      assert f in init;
      NotPlainStays(t, src, init, f);
      FileLeavesOthers(r, src, last, f);
    }
  }

  lemma AllowedApart(dirs: seq<Path>, files: seq<Path>, a: Path)
    requires AllowList(dirs, files) && a in Paths(dirs) + Paths(files)
    ensures forall e :: e in Paths(dirs) + Paths(files) && e != a ==> Apart(e, a)
  {
  }

  lemma DanglingBreaksPromise(dst: Tree, src: Tree, dirs: seq<Path>, files: seq<Path>, ignored: Ignore, d: Path)
    requires WellFormed(dst) && AllowList(dirs, files) && [] !in files && d in dirs && IsDangling(dst, d)
    requires SyncTree(dst, src, dirs, files, ignored).Some?
    ensures IsDangling(SyncTree(dst, src, dirs, files, ignored).value, d)
  {
    hide Apart, Pruned, AllowList, SyncDirectories, SyncFiles;
    var allowed := Paths(dirs) + Paths(files);
    var t := Pruned(dst, allowed, []);
    assert d in Paths(dirs);
    ListFacts(dirs, files);
    AllowedInPruned(dst, allowed, d);
    AllowedApart(dirs, files, d);
    DanglingStays(t, src, dirs, ignored, d);
    FilesLeaveOthers(SyncDirectories(t, src, dirs, ignored).value, src, files, d);
  }

  lemma ListFacts(dirs: seq<Path>, files: seq<Path>)
    requires AllowList(dirs, files)
    ensures PrefixFree(Paths(dirs) + Paths(files)) && NoRepeats(dirs) && NoRepeats(files)
    ensures forall d :: d in dirs ==> d in Paths(dirs) + Paths(files) && d !in Paths(files)
    ensures forall f :: f in files ==> f in Paths(dirs) + Paths(files) && f !in Paths(dirs)
  {
  }

  lemma NotPlainBreaksPromise(dst: Tree, src: Tree, dirs: seq<Path>, files: seq<Path>, ignored: Ignore, f: Path)
    requires WellFormed(dst) && AllowList(dirs, files) && [] !in files && f in files && NotPlain(dst, f)
    requires SyncTree(dst, src, dirs, files, ignored).Some?
    ensures NotPlain(SyncTree(dst, src, dirs, files, ignored).value, f)
  {
    hide Apart, Pruned, AllowList, SyncDirectories, SyncFiles;
    var allowed := Paths(dirs) + Paths(files);
    var t := Pruned(dst, allowed, []);
    ListFacts(dirs, files);
    AllowedInPruned(dst, allowed, f);
    AllowedApart(dirs, files, f);
    DirectoriesLeaveOthers(t, src, dirs, ignored, f);
    NotPlainStays(SyncDirectories(t, src, dirs, ignored).value, src, files, f);
  }

  /** Exactly when a sync succeeds and keeps its promise: when the destination was clean before. */
  lemma PromiseKeptIffClean(dst: Tree, src: Tree, dirs: seq<Path>, files: seq<Path>, ignored: Ignore)
    requires WellFormed(dst) && AllowList(dirs, files) && [] !in files
    ensures (SyncTree(dst, src, dirs, files, ignored).Some? &&
             Promise(SyncTree(dst, src, dirs, files, ignored).value, src, dirs, files, ignored))
            <==> Clean(dst, src, dirs, files)
  {
    hide SyncTree, AllowList, WellFormed, NotIgnored;
    if Clean(dst, src, dirs, files) {
      CleanKeepsPromise(dst, src, dirs, files, ignored);
    } else if SyncTree(dst, src, dirs, files, ignored).Some? {
      var r := SyncTree(dst, src, dirs, files, ignored).value;
      if d :| d in dirs && IsDangling(dst, d) {
        DanglingBreaksPromise(dst, src, dirs, files, ignored, d);
        LinkIsNotPromised(r, src, dirs, ignored, d);
      } else {
        var f :| f in files && SuppliesFile(src, f) && NotPlain(dst, f);
        NotPlainBreaksPromise(dst, src, dirs, files, ignored, f);
        assert Look(r, f) != Look(src, f);
      }
    }
  }

  lemma LinkIsNotPromised(t: Tree, src: Tree, dirs: seq<Path>, ignored: Ignore, d: Path)
    requires d in dirs && IsDangling(t, d)
    ensures !Mirrored(t, src, dirs, ignored)
  {
    assert d <= d;
  }

  // ---------- The promise to readers ----------

  /** A directory at an allowed file's place, or a link to one, stays. */
  lemma {:induction false} DirectoryStays(t: Tree, src: Tree, files: seq<Path>, f: Path)
    requires f in files && [] !in files && NoRepeats(files) && (forall e :: e in files && e != f ==> Apart(e, f))
    requires DirectoryAt(t, f) && SyncFiles(t, src, files).Some?
    ensures DirectoryAt(SyncFiles(t, src, files).value, f)
  {
    hide SyncFile, Apart;
    var init, last := files[..|files| - 1], files[|files| - 1];
    SplitLast(files);
    var r := SyncFiles(t, src, init).value;
    assert last in files;
    if last == f {
      assert forall e :: e in init ==> e in Paths(init);
      FilesLeaveOthers(t, src, init, f);
      OneRoundKeepsDirectory(r, src, f);
    } else {
      assert f in init;
      DirectoryStays(t, src, init, f);
      FileLeavesOthers(r, src, last, f);
    }
  }

  lemma OneRoundKeepsDirectory(t: Tree, src: Tree, f: Path)
    requires f != [] && DirectoryAt(t, f) && SyncFile(t, src, f).Some?
    ensures DirectoryAt(SyncFile(t, src, f).value, f)
  {
    if SuppliesFile(src, f) {
      FileReadIffNothingInTheWay(t, src, f);
    }
  }

  /** A link back to the file that is to be copied onto it makes the second loop fail. */
  lemma {:induction false} LinkBackStops(t: Tree, src: Tree, files: seq<Path>, f: Path)
    requires f in files && [] !in files && NoRepeats(files) && (forall e :: e in files && e != f ==> Apart(e, f))
    requires SuppliesFile(src, f) && InTheWay(t, f) && !DirectoryAt(t, f)
    ensures SyncFiles(t, src, files) == None
  {
    hide SyncFile, Apart, InTheWay, DirectoryAt;
    var init, last := files[..|files| - 1], files[|files| - 1];
    SplitLast(files);
    assert last in files;
    if last != f {
      assert f in init;
      LinkBackStops(t, src, init, f);
    } else if SyncFiles(t, src, init).Some? {
      assert forall e :: e in init ==> e in Paths(init);
      FilesLeaveOthers(t, src, init, f);
      SameInTheWay(t, SyncFiles(t, src, init).value, f);
      FileReadIffNothingInTheWay(SyncFiles(t, src, init).value, src, f);
    }
  }

  lemma SameInTheWay(t: Tree, r: Tree, f: Path)
    requires Look(t, f) == Look(r, f)
    ensures (InTheWay(t, f) <==> InTheWay(r, f)) && (DirectoryAt(t, f) <==> DirectoryAt(r, f))
  {
  }

  /** Where nothing is in the way, the second loop succeeds and every supplied file reads as in the source. */
  lemma {:induction false} FilesReadBack(t: Tree, src: Tree, files: seq<Path>, all: seq<Path>)
    requires files <= all && [] !in files && NoRepeats(all)
    requires forall e, f :: e in all && f in all && e != f ==> Apart(e, f)
    requires forall f :: f in files && SuppliesFile(src, f) ==> !InTheWay(t, f)
    ensures SyncFiles(t, src, files).Some?
    ensures forall f :: f in files && SuppliesFile(src, f) ==>
              Contents(SyncFiles(t, src, files).value, src, f) == Some(src[f].content)
  {
    hide SyncFile, Apart, Look, Contents, InTheWay, SuppliesFile, NoRepeats;
    if |files| != 0 {
      var init, last := files[..|files| - 1], files[|files| - 1];
      LastIsNew(files, all);
      FilesReadBack(t, src, init, all);
      FilesLeaveOthers(t, src, init, last);
      var r := SyncFiles(t, src, init).value;
      ReadingLooks(t, r, src, last);
      RoundSucceeds(r, src, last);
      forall f | f in init
        ensures Contents(SyncFile(r, src, last).value, src, f) == Contents(r, src, f)
      {
        FileLeavesOthers(r, src, last, f);
        ReadingLooks(r, SyncFile(r, src, last).value, src, f);
      }
    }
  }

  lemma LastIsNew(files: seq<Path>, all: seq<Path>)
    requires files <= all && |files| > 0 && NoRepeats(all)
    ensures files[..|files| - 1] <= all && files[|files| - 1] in all
    ensures forall f :: f in files <==> f in files[..|files| - 1] || f == files[|files| - 1]
    ensures forall f :: f in files[..|files| - 1] ==> f in all && f != files[|files| - 1]
  {
    assert files == files[..|files| - 1] + [files[|files| - 1]];
    SplitLast(files);
    var init := files[..|files| - 1];
    assert forall e :: e in init ==> e in Paths(init);
  }

  /** What reading a path gives depends on the entry there alone. */
  lemma ReadingLooks(t: Tree, r: Tree, src: Tree, f: Path)
    requires Look(t, f) == Look(r, f)
    ensures Contents(t, src, f) == Contents(r, src, f) && (InTheWay(t, f) <==> InTheWay(r, f))
  {
  }

  lemma RoundSucceeds(t: Tree, src: Tree, f: Path)
    requires f != [] && (SuppliesFile(src, f) ==> !InTheWay(t, f))
    ensures SyncFile(t, src, f).Some?
    ensures SuppliesFile(src, f) ==> Contents(SyncFile(t, src, f).value, src, f) == Some(src[f].content)
  {
    if SuppliesFile(src, f) {
      FileReadIffNothingInTheWay(t, src, f);
    }
  }

  lemma ReadableKeepsPromise(dst: Tree, src: Tree, dirs: seq<Path>, files: seq<Path>, ignored: Ignore)
    requires WellFormed(dst) && AllowList(dirs, files) && [] !in files && Readable(dst, src, dirs, files)
    ensures SyncTree(dst, src, dirs, files, ignored).Some?
    ensures ReadPromise(SyncTree(dst, src, dirs, files, ignored).value, src, dirs, files, ignored)
  {
    hide SyncDirectory, SyncFile, Ready, Pruned, AfterDirectories, WellFormed, Apart, NotIgnored, DirectoriesDone;
    var allowed := Paths(dirs) + Paths(files);
    var t := Pruned(dst, allowed, []);
    ListFacts(dirs, files);
    forall a | a in allowed
      ensures Look(t, a) == Look(dst, a)
      ensures !IsDangling(dst, a) ==> Ready(t, a)
      ensures forall e :: e in allowed && e != a ==> Apart(e, a)
    {
      AllowedInPruned(dst, allowed, a);
      AllowedApart(dirs, files, a);
      MakeReady(t, a);
    }
    assert PrefixFree(Paths(dirs));
    AllDirectories(t, src, dirs, ignored);
    var r := SyncDirectories(t, src, dirs, ignored).value;
    forall f | f in files
      ensures Look(r, f) == Look(dst, f)
    {
      DirectoriesLeaveOthers(t, src, dirs, ignored, f);
    }
    FilesReadBack(r, src, files, files);
    MirroredAfterFiles(t, r, src, dirs, files, ignored);
  }

  lemma MakeReady(t: Tree, d: Path)
    requires ClearAbove(t, d) && ClearBelow(t, d)
    ensures !IsDangling(t, d) ==> Ready(t, d)
  {
  }

  /** The second loop leaves the allowed directories as the first one left them. */
  lemma MirroredAfterFiles(t: Tree, r: Tree, src: Tree, dirs: seq<Path>, files: seq<Path>, ignored: Ignore)
    requires AllowList(dirs, files) && [] !in files && SyncFiles(r, src, files).Some?
    requires DirectoriesDone(r, t, src, Paths(dirs), ignored)
    ensures Mirrored(SyncFiles(r, src, files).value, src, dirs, ignored)
  {
    hide NotIgnored, AllowList, SyncFiles, AfterDirectories;
    forall d, p | d in dirs && d <= p
      ensures Look(SyncFiles(r, src, files).value, p) ==
              if SuppliesDirectory(src, d) && NotIgnored(p, |d|, ignored) then Look(src, p) else None
    {
      FilesApartFrom(dirs, files, d, p);
      FilesLeaveOthers(r, src, files, p);
      DirectoriesAt(Look(t, p), src, dirs, files, ignored, d, p);
    }
  }

  lemma FilesApartFrom(dirs: seq<Path>, files: seq<Path>, d: Path, p: Path)
    requires AllowList(dirs, files) && d in dirs && d <= p
    ensures forall f :: f in files ==> Apart(f, p)
  {
    ListFacts(dirs, files);
    AllowedApart(dirs, files, d);
    forall f | f in files
      ensures Apart(f, p)
    {
      if f <= p {
        Comparable(d, f, p);
      }
    }
  }

  lemma DirectoriesAt(before: Option<Entry>, src: Tree, dirs: seq<Path>, files: seq<Path>, ignored: Ignore,
                      d: Path, p: Path)
    requires AllowList(dirs, files) && d in dirs && d <= p
    ensures AfterDirectories(before, src, Paths(dirs), ignored, p) ==
            if SuppliesDirectory(src, d) && NotIgnored(p, |d|, ignored) then Look(src, p) else None
  {
    hide NotIgnored, AllowList;
    OnlyThisDirectory(dirs, files, d, p);
    assert d in Paths(dirs);
    assert Under(Paths(dirs), p);
    assert FromSource(src, Paths(dirs), ignored, p) <==> SuppliesDirectory(src, d) && NotIgnored(p, |d|, ignored);
  }

  lemma LinkBackFails(dst: Tree, src: Tree, dirs: seq<Path>, files: seq<Path>, ignored: Ignore, f: Path)
    requires WellFormed(dst) && AllowList(dirs, files) && [] !in files && f in files
    requires SuppliesFile(src, f) && InTheWay(dst, f) && SyncTree(dst, src, dirs, files, ignored).Some?
    ensures DirectoryAt(dst, f)
  {
    hide Apart, Pruned, AllowList, SyncDirectories, SyncFiles, InTheWay, DirectoryAt;
    if !DirectoryAt(dst, f) {
      var allowed := Paths(dirs) + Paths(files);
      var t := Pruned(dst, allowed, []);
      ListFacts(dirs, files);
      AllowedInPruned(dst, allowed, f);
      AllowedApart(dirs, files, f);
      DirectoriesLeaveOthers(t, src, dirs, ignored, f);
      var r := SyncDirectories(t, src, dirs, ignored).value;
      SameInTheWay(dst, r, f);
      LinkBackStops(r, src, files, f);
    }
  }

  lemma DirectoryBreaksPromise(dst: Tree, src: Tree, dirs: seq<Path>, files: seq<Path>, ignored: Ignore, f: Path)
    requires WellFormed(dst) && AllowList(dirs, files) && [] !in files && f in files && DirectoryAt(dst, f)
    requires SyncTree(dst, src, dirs, files, ignored).Some?
    ensures DirectoryAt(SyncTree(dst, src, dirs, files, ignored).value, f)
  {
    hide Apart, Pruned, AllowList, SyncDirectories, SyncFiles;
    var allowed := Paths(dirs) + Paths(files);
    var t := Pruned(dst, allowed, []);
    ListFacts(dirs, files);
    AllowedInPruned(dst, allowed, f);
    AllowedApart(dirs, files, f);
    DirectoriesLeaveOthers(t, src, dirs, ignored, f);
    DirectoryStays(SyncDirectories(t, src, dirs, ignored).value, src, files, f);
  }

  /**
    Exactly when a sync succeeds and everything reads as in the source: when no dangling link is at
    an allowed directory, and no directory and no link back to the source at a supplied file.
  */
  lemma ReadPromiseKeptIffReadable(dst: Tree, src: Tree, dirs: seq<Path>, files: seq<Path>, ignored: Ignore)
    requires WellFormed(dst) && AllowList(dirs, files) && [] !in files
    ensures (SyncTree(dst, src, dirs, files, ignored).Some? &&
             ReadPromise(SyncTree(dst, src, dirs, files, ignored).value, src, dirs, files, ignored))
            <==> Readable(dst, src, dirs, files)
  {
    hide SyncTree, AllowList, WellFormed, NotIgnored, Mirrored;
    if Readable(dst, src, dirs, files) {
      ReadableKeepsPromise(dst, src, dirs, files, ignored);
    } else if SyncTree(dst, src, dirs, files, ignored).Some? {
      var r := SyncTree(dst, src, dirs, files, ignored).value;
      if d :| d in dirs && IsDangling(dst, d) {
        DanglingBreaksPromise(dst, src, dirs, files, ignored, d);
        LinkIsNotPromised(r, src, dirs, ignored, d);
      } else {
        var f :| f in files && SuppliesFile(src, f) && InTheWay(dst, f);
        LinkBackFails(dst, src, dirs, files, ignored, f);
        DirectoryBreaksPromise(dst, src, dirs, files, ignored, f);
        assert Contents(r, src, f) == None;
      }
    }
  }

  // ---------- Well-formedness ----------

  lemma DirectoryKeepsWellFormed(t: Tree, src: Tree, rel: Path, ignored: Ignore)
    requires WellFormed(t) && WellFormed(src) && rel != [] && Ready(t, rel)
    ensures SyncDirectory(t, src, rel, ignored).Some? && WellFormed(SyncDirectory(t, src, rel, ignored).value)
  {
    hide SyncDirectory;
    SyncDirectoryLook(t, src, rel, ignored, []);
    var r := SyncDirectory(t, src, rel, ignored).value;
    forall p | p in r && p != []
      ensures Look(r, Parent(p)) == Some(Directory)
    {
      SyncDirectoryLook(t, src, rel, ignored, p);
      SyncDirectoryLook(t, src, rel, ignored, Parent(p));
      assert rel <= p && |rel| == |p| ==> rel == p;
    }
  }

  /** A round of the first loop that does not fail leaves a well-formed tree, whatever was there. */
  lemma RoundKeepsWellFormed(t: Tree, src: Tree, rel: Path, ignored: Ignore)
    requires WellFormed(t) && WellFormed(src) && rel != [] && ClearAbove(t, rel)
    requires SyncDirectory(t, src, rel, ignored).Some?
    ensures WellFormed(SyncDirectory(t, src, rel, ignored).value)
  {
    if !IsDangling(t, rel) {
      NothingBelowMissing(t, rel);
      DirectoryKeepsWellFormed(t, src, rel, ignored);
    }
  }

  lemma NothingBelowMissing(t: Tree, rel: Path)
    requires WellFormed(t)
    ensures ClearBelow(t, rel)
  {
    if rel !in t {
      forall p | p in t
        ensures !(rel <= p)
      {
        assert rel <= p && |rel| == |p| ==> rel == p;
        if rel < p {
          PrefixesAreDirectories(t, p, rel);
        }
      }
    }
  }
}
