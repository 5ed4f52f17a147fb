/**
  Every path after every successful sync, and exactly when a sync succeeds, in terms of the two
  trees and the ignored names alone.
*/
module WorkspaceOutcome {
  import opened Common
  import opened WorkspaceTree
  import opened WorkspaceResult
  import opened WorkspaceRerun

  // ---------- Below an allowed directory ----------

  /** Where no dangling link sits, the first loop leaves a filtered copy. */
  lemma {:induction false} DirectoryAfterLoop(t: Tree, src: Tree, dirs: seq<Path>, ignored: Ignore, d: Path, p: Path)
    requires d in dirs && NoRepeats(dirs) && (forall e :: e in dirs && e != d ==> Apart(e, d)) && d <= p
    requires ClearAbove(t, d) && ClearBelow(t, d) && !IsDangling(t, d)
    requires SyncDirectories(t, src, dirs, ignored).Some?
    ensures Look(SyncDirectories(t, src, dirs, ignored).value, p) ==
            if SuppliesDirectory(src, d) && NotIgnored(p, |d|, ignored) then Look(src, p) else None
  {
    hide SyncDirectory, Apart, ClearAbove, ClearBelow, NotIgnored, NoRepeats, Look, SuppliesDirectory;
    var init, last := dirs[..|dirs| - 1], dirs[|dirs| - 1];
    LastIsNew(dirs, dirs);
    InitHasNoRepeats(dirs);
    var r := SyncDirectories(t, src, init, ignored).value;
    if last == d {
      DirectoriesLeaveOthers(t, src, init, ignored, d);
      DirectoriesKeepClear(t, src, init, ignored, d);
      StillClearBelow(t, src, init, ignored, d);
      SameLink(t, r, d);
      SyncDirectoryLook(r, src, d, ignored, p);
    } else {
      DirectoryAfterLoop(t, src, init, ignored, d, p);
      ApartBelow(last, d, p);
      DirectoryLeavesOthers(r, src, last, ignored, p);
    }
  }

  lemma SameLink(t: Tree, r: Tree, d: Path)
    requires Look(t, d) == Look(r, d)
    ensures IsDangling(t, d) <==> IsDangling(r, d)
  {
  }

  lemma ApartBelow(e: Path, d: Path, p: Path)
    requires Apart(e, d) && d <= p
    ensures Apart(e, p)
  {
    if e <= p {
      Comparable(e, d, p);
    }
  }

  /** The first loop succeeds exactly when no dangling link sits where a directory is to go. */
  lemma {:induction false} DirectoriesSucceedIff(t: Tree, src: Tree, dirs: seq<Path>, ignored: Ignore)
    requires NoRepeats(dirs) && forall d, e :: d in dirs && e in dirs && e != d ==> Apart(e, d)
    ensures SyncDirectories(t, src, dirs, ignored).Some? <==>
            forall d :: d in dirs ==> !(IsDangling(t, d) && SuppliesDirectory(src, d))
  {
    hide SyncDirectory, Apart, NoRepeats, IsDangling, SuppliesDirectory;
    if |dirs| != 0 {
      var init, last := dirs[..|dirs| - 1], dirs[|dirs| - 1];
      LastIsNew(dirs, dirs);
      InitHasNoRepeats(dirs);
      DirectoriesSucceedIff(t, src, init, ignored);
      if SyncDirectories(t, src, init, ignored).Some? {
        var r := SyncDirectories(t, src, init, ignored).value;
        DirectoriesLeaveOthers(t, src, init, ignored, last);
        SameLink(t, r, last);
        RoundSucceedsIff(r, src, last, ignored);
      }
    }
  }

  lemma RoundSucceedsIff(t: Tree, src: Tree, d: Path, ignored: Ignore)
    ensures SyncDirectory(t, src, d, ignored).Some? <==> !(IsDangling(t, d) && SuppliesDirectory(src, d))
  {
  }

  // ---------- At and below an allowed file ----------

  /** Where `copy2` puts a file when a directory is in its place. */
  function Inside(f: Path): Path
    requires f != []
  {
    f + [f[|f| - 1]]
  }

  /** The entry at `p`, at or below `f`, after one round of the second loop at `f`. */
  ghost function AfterCopy(t: Tree, src: Tree, f: Path, p: Path): Option<Entry>
    requires f != []
  {
    if !SuppliesFile(src, f) then Look(t, p)
    else
      var content := src[f].content;
      match Look(t, f)
      case Some(Directory) => if p == Inside(f) then Written(Look(t, p), content) else Look(t, p)
      case Some(Symlink(ToDirectory)) => Look(t, p)
      case e => if p == f then Written(e, content) else Look(t, p)
  }

  /** What a plain file, nothing, or a link becomes when `content` is written through it. */
  function Written(e: Option<Entry>, content: seq<int>): Option<Entry> {
    if e.Some? && e.value.Symlink? then Some(Symlink(ToFile(content))) else Some(File(content))
  }

  predicate Writable(e: Option<Entry>) {
    e != Some(Directory) && e != Some(Symlink(ToDirectory)) && e != Some(Symlink(ToSource))
  }

  /** `copy2` of a supplied file succeeds. */
  predicate Copies(t: Tree, f: Path)
    requires f != []
  {
    match Look(t, f)
    case Some(Directory) => Writable(Look(t, Inside(f)))
    case Some(Symlink(ToDirectory)) => true
    case e => Writable(e)
  }

  lemma ParentsLeaveBelow(t: Tree, f: Path, p: Path)
    requires f <= p
    ensures Look(MakeParents(t, f), p) == Look(t, p)
  {
    assert forall k :: 0 <= k < |f| ==> f[..k] != p;
  }

  lemma CopyLook(t: Tree, src: Tree, f: Path, p: Path)
    requires f != [] && f <= p
    ensures SyncFile(t, src, f).Some? <==> (SuppliesFile(src, f) ==> Copies(t, f))
    ensures SyncFile(t, src, f).Some? ==> Look(SyncFile(t, src, f).value, p) == AfterCopy(t, src, f, p)
  {
    hide MakeParents;
    ParentsLeaveBelow(t, f, f);
    ParentsLeaveBelow(t, f, Inside(f));
    ParentsLeaveBelow(t, f, p);
  }

  lemma SameCopies(t: Tree, r: Tree, src: Tree, f: Path, p: Path)
    requires f != [] && Look(t, f) == Look(r, f) && Look(t, Inside(f)) == Look(r, Inside(f)) && Look(t, p) == Look(r, p)
    ensures AfterCopy(t, src, f, p) == AfterCopy(r, src, f, p) && (Copies(t, f) <==> Copies(r, f))
  {
  }

  /** Rounds at other files leave the entries that the round at `f` depends on. */
  lemma OthersLeave(t: Tree, src: Tree, files: seq<Path>, f: Path, p: Path)
    requires f != [] && f <= p && [] !in files && (forall e :: e in files ==> Apart(e, f))
    requires SyncFiles(t, src, files).Some?
    ensures var r := SyncFiles(t, src, files).value;
            Look(t, f) == Look(r, f) && Look(t, Inside(f)) == Look(r, Inside(f)) && Look(t, p) == Look(r, p)
  {
    hide SyncFiles, Look;
    forall e | e in files
      ensures Apart(e, Inside(f)) && Apart(e, p)
    {
      ApartBelow(e, f, Inside(f));
      ApartBelow(e, f, p);
    }
    FilesLeaveOthers(t, src, files, f);
    FilesLeaveOthers(t, src, files, Inside(f));
    FilesLeaveOthers(t, src, files, p);
  }

  lemma {:induction false} FileAfterLoop(t: Tree, src: Tree, files: seq<Path>, f: Path, p: Path)
    requires f in files && [] !in files && NoRepeats(files) && (forall e :: e in files && e != f ==> Apart(e, f))
    requires f <= p && SyncFiles(t, src, files).Some?
    ensures Look(SyncFiles(t, src, files).value, p) == AfterCopy(t, src, f, p)
  {
    hide SyncFile, Apart, NoRepeats, Look, AfterCopy, Copies, SuppliesFile;
    var init, last := files[..|files| - 1], files[|files| - 1];
    LastIsNew(files, files);
    InitHasNoRepeats(files);
    var r := SyncFiles(t, src, init).value;
    if last == f {
      OthersLeave(t, src, init, f, p);
      SameCopies(t, r, src, f, p);
      CopyLook(r, src, f, p);
    } else {
      FileAfterLoop(t, src, init, f, p);
      ApartBelow(last, f, p);
      FileLeavesOthers(r, src, last, p);
    }
  }

  lemma {:induction false} FilesSucceedIff(t: Tree, src: Tree, files: seq<Path>)
    requires [] !in files && NoRepeats(files) && forall e, f :: e in files && f in files && e != f ==> Apart(e, f)
    ensures SyncFiles(t, src, files).Some? <==> forall f :: f in files && SuppliesFile(src, f) ==> Copies(t, f)
  {
    hide SyncFile, Apart, NoRepeats, Copies, SuppliesFile;
    if |files| != 0 {
      var init, last := files[..|files| - 1], files[|files| - 1];
      LastIsNew(files, files);
      InitHasNoRepeats(files);
      FilesSucceedIff(t, src, init);
      if SyncFiles(t, src, init).Some? {
        var r := SyncFiles(t, src, init).value;
        OthersLeave(t, src, init, last, last);
        SameCopies(t, r, src, last, last);
        CopyLook(r, src, last, last);
      }
    }
  }

  // ---------- Above the allowed paths ----------

  /** A path that is a real directory or missing, and not at or below any of the paths copied to. */
  lemma {:induction false} AboveAfterDirectories(t: Tree, src: Tree, dirs: seq<Path>, ignored: Ignore, p: Path)
    requires (forall d :: d in dirs ==> !(d <= p)) && (p in t ==> t[p] == Directory)
    requires SyncDirectories(t, src, dirs, ignored).Some?
    ensures Look(SyncDirectories(t, src, dirs, ignored).value, p) ==
            if exists d :: d in dirs && p < d && SuppliesDirectory(src, d) then Some(Directory) else Look(t, p)
  {
    hide SyncDirectory, SuppliesDirectory;
    if |dirs| != 0 {
      var init, last := dirs[..|dirs| - 1], dirs[|dirs| - 1];
      assert last in dirs && forall d :: d in dirs <==> d in init || d == last;
      AboveAfterDirectories(t, src, init, ignored, p);
      AboveOneDirectory(SyncDirectories(t, src, init, ignored).value, src, last, ignored, p);
    }
  }

  lemma AboveOneDirectory(t: Tree, src: Tree, d: Path, ignored: Ignore, p: Path)
    requires !(d <= p) && (p in t ==> t[p] == Directory) && SyncDirectory(t, src, d, ignored).Some?
    ensures Look(SyncDirectory(t, src, d, ignored).value, p) ==
            if p < d && SuppliesDirectory(src, d) then Some(Directory) else Look(t, p)
  {
    if p < d {
      assert p == d[..|p|];
    }
  }

  lemma {:induction false} AboveAfterFiles(t: Tree, src: Tree, files: seq<Path>, p: Path)
    requires [] !in files && (forall f :: f in files ==> !(f <= p)) && (p in t ==> t[p] == Directory)
    requires SyncFiles(t, src, files).Some?
    ensures Look(SyncFiles(t, src, files).value, p) ==
            if exists f :: f in files && p < f && SuppliesFile(src, f) then Some(Directory) else Look(t, p)
  {
    hide SyncFile, SuppliesFile;
    if |files| != 0 {
      var init, last := files[..|files| - 1], files[|files| - 1];
      assert last in files && forall f :: f in files <==> f in init || f == last;
      AboveAfterFiles(t, src, init, p);
      AboveOneFile(SyncFiles(t, src, init).value, src, last, p);
    }
  }

  lemma AboveOneFile(t: Tree, src: Tree, f: Path, p: Path)
    requires f != [] && !(f <= p) && (p in t ==> t[p] == Directory) && SyncFile(t, src, f).Some?
    ensures Look(SyncFile(t, src, f).value, p) ==
            if p < f && SuppliesFile(src, f) then Some(Directory) else Look(t, p)
  {
    if SuppliesFile(src, f) {
      assert Look(MakeParents(t, f), p) == if p < f then Some(Directory) else Look(t, p) by {
        if p < f {
          assert p == f[..|p|];
        }
      }
      CopyIsCopied(MakeParents(t, f), f, src[f].content);
    }
  }

  // ---------- The theorems ----------

  /** Pruning leaves everything at and below allowed paths as it was. */
  lemma PrunedBelow(dst: Tree, allowed: set<Path>, a: Path, p: Path)
    requires a in allowed && a <= p
    ensures Look(Pruned(dst, allowed, []), p) == Look(dst, p)
  {
    assert Under(allowed, p);
  }

  lemma Lists(dirs: seq<Path>, files: seq<Path>)
    requires AllowList(dirs, files)
    ensures forall a, e :: a in Paths(dirs) + Paths(files) && e in Paths(dirs) + Paths(files) && e != a ==> Apart(e, a)
    ensures NoRepeats(dirs) && NoRepeats(files) && PrefixFree(Paths(dirs) + Paths(files))
    ensures forall d :: d in dirs ==> d in Paths(dirs) + Paths(files) && d !in files
    ensures forall f :: f in files ==> f in Paths(dirs) + Paths(files) && f !in dirs
  {
    ListFacts(dirs, files);
    forall a | a in Paths(dirs) + Paths(files)
      ensures forall e :: e in Paths(dirs) + Paths(files) && e != a ==> Apart(e, a)
    {
      AllowedApart(dirs, files, a);
    }
  }

  /**
    At or below an allowed directory a successful sync leaves exactly the source's entries that no
    ignored name cuts off, provided the source has that directory; only a dangling link that was
    there and that the source has no directory for stays.
  */
  lemma DirectoryIsFilteredCopy(dst: Tree, src: Tree, dirs: seq<Path>, files: seq<Path>, ignored: Ignore,
                                d: Path, p: Path)
    requires WellFormed(dst) && AllowList(dirs, files) && [] !in files && d in dirs && d <= p
    requires SyncTree(dst, src, dirs, files, ignored).Some?
    ensures var r := SyncTree(dst, src, dirs, files, ignored).value;
            if d in dst && dst[d] == Symlink(Dangling) then
              && !(d in src && src[d] == Directory)
              && (p in r <==> p == d) && (p == d ==> r[p] == Symlink(Dangling))
            else
              && (p in r <==> d in src && src[d] == Directory && p in src &&
                              forall i :: |d| <= i < |p| ==> !ignored(p[i]))
              && (p in r ==> r[p] == src[p])
  {
    hide Apart, Pruned, AllowList, SyncDirectories, SyncFiles, ClearAbove, ClearBelow, WellFormed, NoRepeats, Paths;
    var allowed := Paths(dirs) + Paths(files);
    var t := Pruned(dst, allowed, []);
    Lists(dirs, files);
    AllowedInPruned(dst, allowed, d);
    var r := SyncDirectories(t, src, dirs, ignored).value;
    forall f | f in files
      ensures Apart(f, p)
    {
      ApartBelow(f, d, p);
    }
    FilesLeaveOthers(r, src, files, p);
    if IsDangling(dst, d) {
      DirectoriesSucceedIff(t, src, dirs, ignored);
      PrunedBelow(dst, allowed, d, p);
      LinkAfterLoop(dst, t, src, dirs, ignored, d, p);
    } else {
      DirectoryAfterLoop(t, src, dirs, ignored, d, p);
    }
  }

  lemma LinkAfterLoop(dst: Tree, t: Tree, src: Tree, dirs: seq<Path>, ignored: Ignore, d: Path, p: Path)
    requires WellFormed(dst) && d <= p && IsDangling(dst, d)
    requires Look(t, d) == Look(dst, d) && Look(t, p) == Look(dst, p)
    requires d in dirs && NoRepeats(dirs) && (forall e :: e in dirs && e != d ==> Apart(e, d))
    requires SyncDirectories(t, src, dirs, ignored).Some?
    ensures Look(SyncDirectories(t, src, dirs, ignored).value, p) == if p == d then Some(Symlink(Dangling)) else None
  {
    hide SyncDirectories;
    if p == d {
      DanglingStays(t, src, dirs, ignored, d);
    } else {
      assert p !in t by {
        if p in t {
          PrefixesAreDirectories(dst, p, d);
        }
      }
      BelowLink(t, src, dirs, ignored, d, p);
    }
  }

  lemma {:induction false} BelowLink(t: Tree, src: Tree, dirs: seq<Path>, ignored: Ignore, d: Path, p: Path)
    requires d <= p && IsDangling(t, d) && p !in t
    requires d in dirs && NoRepeats(dirs) && (forall e :: e in dirs && e != d ==> Apart(e, d))
    requires SyncDirectories(t, src, dirs, ignored).Some?
    ensures p !in SyncDirectories(t, src, dirs, ignored).value
  {
    hide Apart, NoRepeats;
    var init, last := dirs[..|dirs| - 1], dirs[|dirs| - 1];
    LastIsNew(dirs, dirs);
    InitHasNoRepeats(dirs);
    var r := SyncDirectories(t, src, init, ignored).value;
    if last == d {
      forall e | e in init
        ensures Apart(e, p)
      {
        ApartBelow(e, d, p);
      }
      DirectoriesLeaveOthers(t, src, init, ignored, d);
      DirectoriesLeaveOthers(t, src, init, ignored, p);
    } else {
      BelowLink(t, src, init, ignored, d, p);
      ApartBelow(last, d, p);
      DirectoryLeavesOthers(r, src, last, ignored, p);
    }
  }

  /**
    An allowed file that the source supplies is written where `copy2` puts it: in place, through a
    link, or inside a directory of that name; nothing else at or below its path changes.
  */
  lemma FileIsWritten(dst: Tree, src: Tree, dirs: seq<Path>, files: seq<Path>, ignored: Ignore, f: Path, p: Path)
    requires WellFormed(dst) && AllowList(dirs, files) && [] !in files && f in files && f <= p
    requires SyncTree(dst, src, dirs, files, ignored).Some?
    ensures var r := SyncTree(dst, src, dirs, files, ignored).value;
            var target := if f in dst && dst[f] == Directory then f + [f[|f| - 1]] else f;
            if f in src && src[f].File? && p == target && !(f in dst && dst[f] == Symlink(ToDirectory)) then
              p in r && r[p] == if p in dst && dst[p].Symlink? then Symlink(ToFile(src[f].content)) else src[f]
            else
              (p in r <==> p in dst) && (p in r ==> r[p] == dst[p])
  {
    hide Apart, Pruned, AllowList, SyncDirectories, SyncFiles, WellFormed, NoRepeats, Paths;
    var allowed := Paths(dirs) + Paths(files);
    var t := Pruned(dst, allowed, []);
    Lists(dirs, files);
    var r := SyncDirectories(t, src, dirs, ignored).value;
    SeenByCopy(dst, src, dirs, files, ignored, f, p);
    FileAfterLoop(r, src, files, f, p);
    SameCopies(dst, r, src, f, p);
  }

  /** What a round of the second loop sees at and below its file is what was there before the sync. */
  lemma SeenByCopy(dst: Tree, src: Tree, dirs: seq<Path>, files: seq<Path>, ignored: Ignore, f: Path, p: Path)
    requires AllowList(dirs, files) && f in files && f != [] && f <= p
    requires SyncDirectories(Pruned(dst, Paths(dirs) + Paths(files), []), src, dirs, ignored).Some?
    ensures var r := SyncDirectories(Pruned(dst, Paths(dirs) + Paths(files), []), src, dirs, ignored).value;
            Look(dst, f) == Look(r, f) && Look(dst, Inside(f)) == Look(r, Inside(f)) && Look(dst, p) == Look(r, p)
  {
    hide Apart, Pruned, AllowList, SyncDirectories, NoRepeats, Paths, Look;
    var allowed := Paths(dirs) + Paths(files);
    var t := Pruned(dst, allowed, []);
    Lists(dirs, files);
    forall q | f <= q
      ensures Look(dst, q) == Look(SyncDirectories(t, src, dirs, ignored).value, q)
    {
      forall d | d in dirs
        ensures Apart(d, q)
      {
        ApartBelow(d, f, q);
      }
      PrunedBelow(dst, allowed, f, q);
      DirectoriesLeaveOthers(t, src, dirs, ignored, q);
    }
    assert f <= f && f <= Inside(f);
  }

  /** Everywhere else only real directories remain: those that lead to something copied, and old ones on the way. */
  lemma RestIsDirectories(dst: Tree, src: Tree, dirs: seq<Path>, files: seq<Path>, ignored: Ignore, p: Path)
    requires WellFormed(dst) && AllowList(dirs, files) && [] !in files
    requires SyncTree(dst, src, dirs, files, ignored).Some?
    requires (forall d :: d in dirs ==> !(d <= p)) && (forall f :: f in files ==> !(f <= p))
    ensures var r := SyncTree(dst, src, dirs, files, ignored).value;
            && (p in r ==> r[p] == Directory)
            && (p in r <==>
                || p == []
                || (p in dst && dst[p] == Directory && exists a :: (a in dirs || a in files) && p < a)
                || (exists d :: d in dirs && p < d && d in src && src[d] == Directory)
                || (exists f :: f in files && p < f && f in src && src[f].File?))
  {
    hide AllowList, SyncDirectories, SyncFiles, WellFormed, Keeps;
    var allowed := Paths(dirs) + Paths(files);
    var t := Pruned(dst, allowed, []);
    PruningIsExact(dst, allowed);
    KeptAbove(dst, dirs, files, p);
    AboveAfterDirectories(t, src, dirs, ignored, p);
    AboveAfterFiles(SyncDirectories(t, src, dirs, ignored).value, src, files, p);
  }

  lemma KeptAbove(dst: Tree, dirs: seq<Path>, files: seq<Path>, p: Path)
    requires WellFormed(dst) && (forall d :: d in dirs ==> !(d <= p)) && (forall f :: f in files ==> !(f <= p))
    ensures p in dst && Keeps(dst, Paths(dirs) + Paths(files), p) <==>
            p == [] || (p in dst && dst[p] == Directory && exists a :: (a in dirs || a in files) && p < a)
    ensures p in dst && Keeps(dst, Paths(dirs) + Paths(files), p) ==> dst[p] == Directory
  {
    var allowed := Paths(dirs) + Paths(files);
    assert !Under(allowed, p);
    if p in Ancestors(allowed) {
      var a, k :| a in allowed && 0 < k < |a| && p == a[..k];
      assert p < a;
    }
    if p != [] && exists a :: (a in dirs || a in files) && p < a {
      var a :| (a in dirs || a in files) && p < a;
      assert a in allowed && p == a[..|p|];
    }
  }

  /**
    A sync succeeds exactly when no dangling link sits where the source has a directory, and every
    supplied file finds a place that is neither a directory nor the file itself.
  */
  lemma SyncSucceedsIff(dst: Tree, src: Tree, dirs: seq<Path>, files: seq<Path>, ignored: Ignore)
    requires WellFormed(dst) && AllowList(dirs, files) && [] !in files
    ensures SyncTree(dst, src, dirs, files, ignored).Some? <==>
            && (forall d :: d in dirs && d in dst && dst[d] == Symlink(Dangling) ==> !(d in src && src[d] == Directory))
            && (forall f :: f in files && f in src && src[f].File? && f in dst && dst[f] != Symlink(ToDirectory) ==>
                  var target := if dst[f] == Directory then f + [f[|f| - 1]] else f;
                  target in dst ==> dst[target] !in {Directory, Symlink(ToDirectory), Symlink(ToSource)})
  {
    hide Apart, Pruned, AllowList, SyncDirectories, SyncFiles, WellFormed, NoRepeats, Paths, Copies;
    var allowed := Paths(dirs) + Paths(files);
    var t := Pruned(dst, allowed, []);
    Lists(dirs, files);
    forall d | d in dirs
      ensures Look(t, d) == Look(dst, d)
    {
      AllowedInPruned(dst, allowed, d);
    }
    DirectoriesSucceedIff(t, src, dirs, ignored);
    assert SyncDirectories(t, src, dirs, ignored).Some? <==>
           forall d :: d in dirs && d in dst && dst[d] == Symlink(Dangling) ==> !(d in src && src[d] == Directory);
    if SyncDirectories(t, src, dirs, ignored).Some? {
      var r := SyncDirectories(t, src, dirs, ignored).value;
      FilesSucceedIff(r, src, files);
      if SyncFiles(r, src, files).Some? {
        forall f | f in files && f in src && src[f].File? && f in dst && dst[f] != Symlink(ToDirectory)
          ensures var target := if dst[f] == Directory then f + [f[|f| - 1]] else f;
                  target in dst ==> dst[target] !in {Directory, Symlink(ToDirectory), Symlink(ToSource)}
        {
          assert SuppliesFile(src, f) && Copies(r, f);
          SeenByCopy(dst, src, dirs, files, ignored, f, f);
          CopiesWhere(dst, r, src, f);
        }
      } else {
        var f :| f in files && SuppliesFile(src, f) && !Copies(r, f);
        SeenByCopy(dst, src, dirs, files, ignored, f, f);
        CopiesWhere(dst, r, src, f);
        assert f in dst && dst[f] != Symlink(ToDirectory);
        var target := if dst[f] == Directory then f + [f[|f| - 1]] else f;
        assert target in dst && dst[target] in {Directory, Symlink(ToDirectory), Symlink(ToSource)};
      }
    }
  }

  lemma CopiesWhere(dst: Tree, r: Tree, src: Tree, f: Path)
    requires f != [] && Look(dst, f) == Look(r, f) && Look(dst, Inside(f)) == Look(r, Inside(f))
    ensures Copies(r, f) <==>
            (f in dst && dst[f] != Symlink(ToDirectory) ==>
               var target := if dst[f] == Directory then f + [f[|f| - 1]] else f;
               target in dst ==> dst[target] !in {Directory, Symlink(ToDirectory), Symlink(ToSource)})
  {
    SameCopies(dst, r, src, f, f);
  }
}
