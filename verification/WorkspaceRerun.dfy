/**
  What every successful sync has in common, whatever the destination held before: nothing foreign
  remains, the tree is well formed if the source is, and a second sync changes nothing.
*/
module WorkspaceRerun {
  import opened Common
  import opened WorkspaceTree
  import opened WorkspaceResult

  // ---------- The shape of a pruned tree ----------

  ghost predicate Shaped(t: Tree, allowed: set<Path>) {
    Look(t, []) == Some(Directory) && forall p :: p in t ==> Keeps(t, allowed, p)
  }

  lemma PrunedIsShaped(dst: Tree, allowed: set<Path>)
    requires WellFormed(dst) && PrefixFree(allowed)
    ensures Shaped(Pruned(dst, allowed, []), allowed)
  {
    var t := Pruned(dst, allowed, []);
    PruningIsExact(dst, allowed);
    forall p | p in t
      ensures Keeps(t, allowed, p)
    {
      assert Look(t, p) == Look(dst, p);
    }
  }

  lemma ShapedIsPruned(t: Tree, allowed: set<Path>)
    requires Shaped(t, allowed)
    ensures Pruned(t, allowed, []) == t
  {
  }

  lemma ShapedIsClear(t: Tree, allowed: set<Path>, a: Path)
    requires Shaped(t, allowed) && PrefixFree(allowed) && a in allowed
    ensures ClearAbove(t, a)
  {
    forall p | p in t && p < a
      ensures t[p] == Directory
    {
      assert Keeps(t, allowed, p);
      NotUnderAbove(allowed, a, p);
    }
  }

  lemma NotUnderAbove(allowed: set<Path>, a: Path, p: Path)
    requires PrefixFree(allowed) && a in allowed && p < a
    ensures !Under(allowed, p)
  {
    forall b | b in allowed
      ensures !(b <= p)
    {
      assert b <= p ==> b <= a && |b| < |a|;
    }
  }

  lemma DirectoryKeepsShape(t: Tree, src: Tree, d: Path, ignored: Ignore, allowed: set<Path>)
    requires Shaped(t, allowed) && d in allowed && d != [] && SyncDirectory(t, src, d, ignored).Some?
    ensures Shaped(SyncDirectory(t, src, d, ignored).value, allowed)
  {
    hide NotIgnored;
    var r := SyncDirectory(t, src, d, ignored).value;
    forall p | p in r
      ensures Keeps(r, allowed, p)
    {
      if d <= p {
        assert Under(allowed, p);
      } else if p in t {
        assert Keeps(t, allowed, p);
      } else {
        var k :| 0 <= k < |d| && p == d[..k];
      }
    }
  }

  lemma FileKeepsShape(t: Tree, src: Tree, f: Path, allowed: set<Path>)
    requires Shaped(t, allowed) && f in allowed && f != [] && SyncFile(t, src, f).Some?
    ensures Shaped(SyncFile(t, src, f).value, allowed)
  {
    var r := SyncFile(t, src, f).value;
    forall p
      ensures !(f <= p) ==> Look(r, p) == Look(MakeParents(t, f), p) || Look(r, p) == Look(t, p)
    {
      assert f <= f + [f[|f| - 1]];
    }
    forall p | p in r
      ensures Keeps(r, allowed, p)
    {
      if f <= p {
        assert Under(allowed, p);
      } else if p in t {
        assert Keeps(t, allowed, p);
      } else {
        assert p in MakeParents(t, f);
        var k :| 0 <= k < |f| && p == f[..k];
      }
    }
    assert !(f <= []);
  }

  // ---------- Settled directories ----------

  /** Another round at `d` has nothing to do. */
  ghost predicate SettledDirectory(t: Tree, src: Tree, d: Path, ignored: Ignore) {
    if SuppliesDirectory(src, d) then
      && (forall p :: p < d ==> Look(t, p) == Some(Directory))
      && (forall p :: d <= p ==> Look(t, p) == if NotIgnored(p, |d|, ignored) then Look(src, p) else None)
    else d !in t || IsDangling(t, d)
  }

  lemma RoundSettlesDirectory(t: Tree, src: Tree, d: Path, ignored: Ignore)
    requires ClearAbove(t, d) && ClearBelow(t, d) && SyncDirectory(t, src, d, ignored).Some?
    ensures SettledDirectory(SyncDirectory(t, src, d, ignored).value, src, d, ignored)
  {
    if !IsDangling(t, d) {
      hide SyncDirectory, NotIgnored, ClearAbove, ClearBelow;
      var r := SyncDirectory(t, src, d, ignored).value;
      forall p
        ensures d <= p ==> Look(r, p) ==
                           if SuppliesDirectory(src, d) && NotIgnored(p, |d|, ignored) then Look(src, p) else None
        ensures p < d && SuppliesDirectory(src, d) ==> Look(r, p) == Some(Directory)
      {
        SyncDirectoryLook(t, src, d, ignored, p);
      }
      assert d <= d;
    }
  }

  lemma SettledDirectoryStays(t: Tree, src: Tree, d: Path, ignored: Ignore)
    requires SettledDirectory(t, src, d, ignored)
    ensures SyncDirectory(t, src, d, ignored) == Some(t)
  {
    if SuppliesDirectory(src, d) {
      assert d <= d && Look(t, d) == Some(Directory);
      var r := MakeParents(Removed(t, d), d) + Subtree(src, d, ignored);
      forall p
        ensures Look(r, p) == Look(t, p)
      {
        if d <= p {
          assert Look(t, p) == if NotIgnored(p, |d|, ignored) then Look(src, p) else None;
        }
      }
      SameLooks(r, t);
    }
  }

  lemma SameLooks(a: Tree, b: Tree)
    requires forall p :: Look(a, p) == Look(b, p)
    ensures a == b
  {
    forall p
      ensures p in a <==> p in b
      ensures p in a ==> a[p] == b[p]
    {
      assert Look(a, p) == Look(b, p);
    }
  }

  /** A round elsewhere in either loop does not unsettle a directory: nothing at, below or above it changes. */
  lemma StaysSettled(t: Tree, r: Tree, src: Tree, d: Path, e: Path, ignored: Ignore)
    requires SettledDirectory(t, src, d, ignored) && Apart(e, d)
    requires forall p :: Apart(e, p) ==> Look(r, p) == Look(t, p)
    requires forall p :: !(e <= p) && Look(t, p) == Some(Directory) ==> Look(r, p) == Some(Directory)
    ensures SettledDirectory(r, src, d, ignored)
  {
    hide NotIgnored;
    forall p
      ensures d <= p ==> Look(r, p) == Look(t, p)
      ensures p < d && Look(t, p) == Some(Directory) ==> Look(r, p) == Some(Directory)
    {
      if d <= p && e <= p {
        Comparable(d, e, p);
      }
    }
    assert Look(r, d) == Look(t, d);
  }

  lemma DirectoryLeavesRest(t: Tree, src: Tree, e: Path, ignored: Ignore)
    requires SyncDirectory(t, src, e, ignored).Some?
    ensures var r := SyncDirectory(t, src, e, ignored).value;
            && (forall p :: Apart(e, p) ==> Look(r, p) == Look(t, p))
            && (forall p :: !(e <= p) && Look(t, p) == Some(Directory) ==> Look(r, p) == Some(Directory))
  {
    hide NotIgnored;
    forall p | Apart(e, p)
      ensures Look(SyncDirectory(t, src, e, ignored).value, p) == Look(t, p)
    {
      DirectoryLeavesOthers(t, src, e, ignored, p);
    }
  }

  lemma FileLeavesRest(t: Tree, src: Tree, e: Path)
    requires e != [] && SyncFile(t, src, e).Some?
    ensures var r := SyncFile(t, src, e).value;
            && (forall p :: Apart(e, p) ==> Look(r, p) == Look(t, p))
            && (forall p :: !(e <= p) && Look(t, p) == Some(Directory) ==> Look(r, p) == Some(Directory))
  {
    forall p | Apart(e, p)
      ensures Look(SyncFile(t, src, e).value, p) == Look(t, p)
    {
      FileLeavesOthers(t, src, e, p);
    }
    assert e <= e + [e[|e| - 1]];
  }

  // ---------- Settled files ----------

  predicate Holds(e: Option<Entry>, content: seq<int>) {
    e == Some(File(content)) || e == Some(Symlink(ToFile(content)))
  }

  /** `copy2` has put the content where it ends up: at the path, through a link there, or inside a directory there. */
  predicate Copied(t: Tree, f: Path, content: seq<int>)
    requires f != []
  {
    match Look(t, f)
    case Some(Directory) => Holds(Look(t, f + [f[|f| - 1]]), content)
    case Some(Symlink(ToDirectory)) => true
    case e => Holds(e, content)
  }

  ghost predicate SettledFile(t: Tree, src: Tree, f: Path)
    requires f != []
  {
    SuppliesFile(src, f) ==> Copied(t, f, src[f].content) && forall p :: p < f ==> Look(t, p) == Some(Directory)
  }

  lemma CopyIsCopied(t: Tree, f: Path, content: seq<int>)
    requires f != [] && Copy2(t, f, content).Some?
    ensures Copied(Copy2(t, f, content).value, f, content)
    ensures forall p :: !(f <= p) ==> Look(Copy2(t, f, content).value, p) == Look(t, p)
  {
    assert f + [f[|f| - 1]] != f && f <= f + [f[|f| - 1]];
  }

  lemma CopiedAgain(t: Tree, f: Path, content: seq<int>)
    requires f != [] && Copied(t, f, content)
    ensures Copy2(t, f, content) == Some(t)
  {
    forall q, e | Look(t, q) == Some(e)
      ensures t[q := e] == t
    {
    }
  }

  lemma RoundSettlesFile(t: Tree, src: Tree, f: Path)
    requires f != [] && ClearAbove(t, f) && SyncFile(t, src, f).Some?
    ensures SettledFile(SyncFile(t, src, f).value, src, f)
  {
    hide Copy2, Copied, MakeParents, ClearAbove;
    if SuppliesFile(src, f) {
      var r := SyncFile(t, src, f).value;
      CopyIsCopied(MakeParents(t, f), f, src[f].content);
      forall p | p < f
        ensures Look(r, p) == Some(Directory)
      {
        MakeParentsLook(t, f, p);
      }
    }
  }

  lemma SettledFileStays(t: Tree, src: Tree, f: Path)
    requires f != [] && SettledFile(t, src, f)
    ensures SyncFile(t, src, f) == Some(t)
  {
    if SuppliesFile(src, f) {
      hide Copy2, Copied;
      forall k | 0 <= k < |f|
        ensures f[..k] in t
      {
        assert f[..k] < f && Look(t, f[..k]) == Some(Directory);
      }
      assert MakeParents(t, f) == t;
      CopiedAgain(t, f, src[f].content);
    }
  }

  lemma FileStaysSettled(t: Tree, r: Tree, src: Tree, f: Path, e: Path)
    requires f != [] && SettledFile(t, src, f) && Apart(e, f)
    requires forall p :: Apart(e, p) ==> Look(r, p) == Look(t, p)
    requires forall p :: !(e <= p) && Look(t, p) == Some(Directory) ==> Look(r, p) == Some(Directory)
    ensures SettledFile(r, src, f)
  {
    var inside := f + [f[|f| - 1]];
    if e <= inside {
      Comparable(e, f, inside);
    }
    assert f <= inside;
    assert Look(r, f) == Look(t, f) && Look(r, inside) == Look(t, inside);
  }

  // ---------- The loops ----------

  ghost predicate AllSettled(t: Tree, src: Tree, dirs: seq<Path>, ignored: Ignore) {
    forall d :: d in dirs ==> SettledDirectory(t, src, d, ignored)
  }

  /** The first loop keeps the shape of the tree and settles every allowed directory. */
  lemma {:induction false} DirectoriesSettle(t: Tree, src: Tree, dirs: seq<Path>, ignored: Ignore, allowed: set<Path>)
    requires Shaped(t, allowed) && PrefixFree(allowed) && NoRepeats(dirs)
    requires forall d :: d in dirs ==> d in allowed && ClearBelow(t, d)
    requires SyncDirectories(t, src, dirs, ignored).Some?
    ensures Shaped(SyncDirectories(t, src, dirs, ignored).value, allowed)
    ensures AllSettled(SyncDirectories(t, src, dirs, ignored).value, src, dirs, ignored)
  {
    hide Shaped, ClearBelow, SyncDirectory, SettledDirectory, PrefixFree, Apart, NoRepeats;
    if |dirs| != 0 {
      var init, last := dirs[..|dirs| - 1], dirs[|dirs| - 1];
      LastIsNew(dirs, dirs);
      InitHasNoRepeats(dirs);
      DirectoriesSettle(t, src, init, ignored, allowed);
      var r := SyncDirectories(t, src, init, ignored).value;
      OthersApart(allowed, last);
      ShapedIsClear(r, allowed, last);
      StillClearBelow(t, src, init, ignored, last);
      DirectoryKeepsShape(r, src, last, ignored, allowed);
      RoundSettlesDirectory(r, src, last, ignored);
      DirectoryLeavesRest(r, src, last, ignored);
      forall d | d in init
        ensures SettledDirectory(SyncDirectory(r, src, last, ignored).value, src, d, ignored)
      {
        StaysSettled(r, SyncDirectory(r, src, last, ignored).value, src, d, last, ignored);
      }
    }
  }

  lemma InitHasNoRepeats(s: seq<Path>)
    requires NoRepeats(s) && |s| > 0
    ensures NoRepeats(s[..|s| - 1])
  {
  }

  lemma OthersApart(allowed: set<Path>, a: Path)
    requires PrefixFree(allowed) && a in allowed
    ensures a != [] && forall e :: e in allowed && e != a ==> Apart(a, e) && Apart(e, a)
  {
  }

  lemma StillClearBelow(t: Tree, src: Tree, dirs: seq<Path>, ignored: Ignore, q: Path)
    requires (forall d :: d in dirs ==> Apart(d, q)) && SyncDirectories(t, src, dirs, ignored).Some? && ClearBelow(t, q)
    ensures ClearBelow(SyncDirectories(t, src, dirs, ignored).value, q)
  {
    hide SyncDirectories;
    var r := SyncDirectories(t, src, dirs, ignored).value;
    forall p | q <= p
      ensures Look(r, p) == Look(t, p)
    {
      forall d | d in dirs
        ensures Apart(d, p)
      {
        if d <= p {
          Comparable(d, q, p);
        }
      }
      DirectoriesLeaveOthers(t, src, dirs, ignored, p);
    }
    assert q <= q;
    forall p | p in r && q <= p
      ensures q in r
    {
      assert Look(r, p) == Look(t, p) && Look(r, q) == Look(t, q);
    }
  }

  /** The second loop keeps all that and settles every allowed file. */
  lemma {:induction false} FilesSettle(t: Tree, src: Tree, dirs: seq<Path>, files: seq<Path>, ignored: Ignore,
                                       allowed: set<Path>)
    requires Shaped(t, allowed) && PrefixFree(allowed) && NoRepeats(files) && [] !in files
    requires (forall f :: f in files ==> f in allowed && f !in dirs) && forall d :: d in dirs ==> d in allowed
    requires AllSettled(t, src, dirs, ignored) && SyncFiles(t, src, files).Some?
    ensures var r := SyncFiles(t, src, files).value;
            && Shaped(r, allowed) && AllSettled(r, src, dirs, ignored)
            && forall f :: f in files ==> f != [] && SettledFile(r, src, f)
  {
    hide Shaped, SyncFile, SettledDirectory, SettledFile, PrefixFree, Apart, NoRepeats;
    if |files| != 0 {
      var init, last := files[..|files| - 1], files[|files| - 1];
      LastIsNew(files, files);
      InitHasNoRepeats(files);
      FilesSettle(t, src, dirs, init, ignored, allowed);
      var r := SyncFiles(t, src, init).value;
      OthersApart(allowed, last);
      ShapedIsClear(r, allowed, last);
      FileKeepsShape(r, src, last, allowed);
      RoundSettlesFile(r, src, last);
      FileLeavesRest(r, src, last);
      forall d | d in dirs
        ensures SettledDirectory(SyncFile(r, src, last).value, src, d, ignored)
      {
        StaysSettled(r, SyncFile(r, src, last).value, src, d, last, ignored);
      }
      forall f | f in init
        ensures SettledFile(SyncFile(r, src, last).value, src, f)
      {
        FileStaysSettled(r, SyncFile(r, src, last).value, src, f, last);
      }
    }
  }

  lemma {:induction false} SettledDirectoriesStay(t: Tree, src: Tree, dirs: seq<Path>, ignored: Ignore)
    requires AllSettled(t, src, dirs, ignored)
    ensures SyncDirectories(t, src, dirs, ignored) == Some(t)
  {
    hide SyncDirectory, SettledDirectory;
    if |dirs| != 0 {
      SettledDirectoriesStay(t, src, dirs[..|dirs| - 1], ignored);
      assert dirs[|dirs| - 1] in dirs;
      SettledDirectoryStays(t, src, dirs[|dirs| - 1], ignored);
    }
  }

  lemma {:induction false} SettledFilesStay(t: Tree, src: Tree, files: seq<Path>)
    requires [] !in files && forall f :: f in files ==> f != [] && SettledFile(t, src, f)
    ensures SyncFiles(t, src, files) == Some(t)
  {
    hide SyncFile, SettledFile;
    if |files| != 0 {
      SettledFilesStay(t, src, files[..|files| - 1]);
      assert files[|files| - 1] in files;
      SettledFileStays(t, src, files[|files| - 1]);
    }
  }

  // ---------- The theorems ----------

  lemma AllIsSettled(dst: Tree, src: Tree, dirs: seq<Path>, files: seq<Path>, ignored: Ignore)
    requires WellFormed(dst) && AllowList(dirs, files) && [] !in files
    requires SyncTree(dst, src, dirs, files, ignored).Some?
    ensures var r := SyncTree(dst, src, dirs, files, ignored).value;
            && Shaped(r, Paths(dirs) + Paths(files)) && AllSettled(r, src, dirs, ignored)
            && forall f :: f in files ==> f != [] && SettledFile(r, src, f)
  {
    hide Shaped, Pruned, SyncDirectories, SyncFiles, AllSettled, SettledFile, ClearBelow, AllowList, PrefixFree;
    var allowed := Paths(dirs) + Paths(files);
    var t := Pruned(dst, allowed, []);
    ListFacts(dirs, files);
    PrunedIsShaped(dst, allowed);
    forall d | d in dirs
      ensures ClearBelow(t, d)
    {
      AllowedInPruned(dst, allowed, d);
    }
    DirectoriesSettle(t, src, dirs, ignored, allowed);
    assert forall f :: f in files ==> f in Paths(files) && f !in dirs;
    FilesSettle(SyncDirectories(t, src, dirs, ignored).value, src, dirs, files, ignored, allowed);
  }

  /** Every successful sync leaves nothing but the root, allowed entries, and real directories on the way to them. */
  lemma NothingElseRemains(dst: Tree, src: Tree, dirs: seq<Path>, files: seq<Path>, ignored: Ignore, p: Path)
    requires WellFormed(dst) && AllowList(dirs, files) && [] !in files
    requires SyncTree(dst, src, dirs, files, ignored).Some?
    ensures var r := SyncTree(dst, src, dirs, files, ignored).value;
            var allowed := Paths(dirs) + Paths(files);
            p in r ==> Under(allowed, p) || ((p == [] || p in Ancestors(allowed)) && r[p] == Directory)
  {
    hide SyncTree, AllowList, WellFormed, Under;
    AllIsSettled(dst, src, dirs, files, ignored);
  }

  /** Whatever the destination held, a second sync after a successful one changes nothing. */
  lemma SyncIsIdempotent(dst: Tree, src: Tree, dirs: seq<Path>, files: seq<Path>, ignored: Ignore)
    requires WellFormed(dst) && AllowList(dirs, files) && [] !in files
    requires SyncTree(dst, src, dirs, files, ignored).Some?
    ensures var r := SyncTree(dst, src, dirs, files, ignored);
            SyncTree(r.value, src, dirs, files, ignored) == r
  {
    hide Pruned, SyncDirectories, SyncFiles, Shaped, AllSettled, SettledFile, AllowList, WellFormed;
    AllIsSettled(dst, src, dirs, files, ignored);
    var r := SyncTree(dst, src, dirs, files, ignored).value;
    ShapedIsPruned(r, Paths(dirs) + Paths(files));
    SettledDirectoriesStay(r, src, dirs, ignored);
    SettledFilesStay(r, src, files);
  }

  // ---------- Well-formedness ----------

  lemma FileKeepsWellFormed(t: Tree, src: Tree, f: Path)
    requires WellFormed(t) && f != [] && ClearAbove(t, f) && SyncFile(t, src, f).Some?
    ensures WellFormed(SyncFile(t, src, f).value)
  {
    if SuppliesFile(src, f) {
      hide MakeParents;
      var m := MakeParents(t, f);
      ParentsKeepWellFormed(t, f);
      CopyKeepsWellFormed(m, f, src[f].content);
    }
  }

  lemma ParentsKeepWellFormed(t: Tree, f: Path)
    requires WellFormed(t) && f != [] && ClearAbove(t, f)
    ensures WellFormed(MakeParents(t, f)) && Look(MakeParents(t, f), Parent(f)) == Some(Directory)
  {
    hide MakeParents, ClearAbove;
    var m := MakeParents(t, f);
    MakeParentsLook(t, f, []);
    MakeParentsLook(t, f, Parent(f));
    forall p | p in m && p != []
      ensures Look(m, Parent(p)) == Some(Directory)
    {
      MakeParentsLook(t, f, p);
      MakeParentsLook(t, f, Parent(p));
      assert p < f ==> Parent(p) < f;
    }
  }

  lemma CopyKeepsWellFormed(m: Tree, f: Path, content: seq<int>)
    requires WellFormed(m) && f != [] && Look(m, Parent(f)) == Some(Directory) && Copy2(m, f, content).Some?
    ensures WellFormed(Copy2(m, f, content).value)
  {
    var inside := f + [f[|f| - 1]];
    var r := Copy2(m, f, content).value;
    assert Parent(inside) == f;
    forall p
      ensures Look(m, p) == Some(Directory) ==> Look(r, p) == Some(Directory)
      ensures p in r ==> p in m || (p == f && Look(m, f) == None) || (p == inside && Look(m, f) == Some(Directory))
    {
    }
    forall p | p in r && p != []
      ensures Look(r, Parent(p)) == Some(Directory)
    {
      assert p in m ==> Look(m, Parent(p)) == Some(Directory);
    }
  }

  lemma {:induction false} DirectoriesKeepWellFormed(t: Tree, src: Tree, dirs: seq<Path>, ignored: Ignore,
                                                    allowed: set<Path>)
    requires Shaped(t, allowed) && PrefixFree(allowed) && forall d :: d in dirs ==> d in allowed
    requires WellFormed(t) && WellFormed(src) && SyncDirectories(t, src, dirs, ignored).Some?
    ensures Shaped(SyncDirectories(t, src, dirs, ignored).value, allowed)
    ensures WellFormed(SyncDirectories(t, src, dirs, ignored).value)
  {
    hide Shaped, SyncDirectory, WellFormed, PrefixFree;
    if |dirs| != 0 {
      var init, last := dirs[..|dirs| - 1], dirs[|dirs| - 1];
      assert last in dirs;
      DirectoriesKeepWellFormed(t, src, init, ignored, allowed);
      var r := SyncDirectories(t, src, init, ignored).value;
      OthersApart(allowed, last);
      ShapedIsClear(r, allowed, last);
      DirectoryKeepsShape(r, src, last, ignored, allowed);
      RoundKeepsWellFormed(r, src, last, ignored);
    }
  }

  lemma {:induction false} FilesKeepWellFormed(t: Tree, src: Tree, files: seq<Path>, allowed: set<Path>)
    requires Shaped(t, allowed) && PrefixFree(allowed) && [] !in files && forall f :: f in files ==> f in allowed
    requires WellFormed(t) && SyncFiles(t, src, files).Some?
    ensures Shaped(SyncFiles(t, src, files).value, allowed)
    ensures WellFormed(SyncFiles(t, src, files).value)
  {
    hide Shaped, SyncFile, WellFormed, PrefixFree;
    if |files| != 0 {
      var init, last := files[..|files| - 1], files[|files| - 1];
      assert last in files;
      FilesKeepWellFormed(t, src, init, allowed);
      var r := SyncFiles(t, src, init).value;
      ShapedIsClear(r, allowed, last);
      FileKeepsShape(r, src, last, allowed);
      FileKeepsWellFormed(r, src, last);
    }
  }

  /** Every successful sync from a well-formed source leaves a well-formed tree. */
  lemma ResultIsWellFormed(dst: Tree, src: Tree, dirs: seq<Path>, files: seq<Path>, ignored: Ignore)
    requires WellFormed(dst) && WellFormed(src) && AllowList(dirs, files) && [] !in files
    requires SyncTree(dst, src, dirs, files, ignored).Some?
    ensures WellFormed(SyncTree(dst, src, dirs, files, ignored).value)
  {
    hide Shaped, Pruned, SyncDirectories, SyncFiles, WellFormed, AllowList, PrefixFree;
    var allowed := Paths(dirs) + Paths(files);
    var t := Pruned(dst, allowed, []);
    ListFacts(dirs, files);
    PrunedIsShaped(dst, allowed);
    PruningIsExact(dst, allowed);
    DirectoriesKeepWellFormed(t, src, dirs, ignored, allowed);
    FilesKeepWellFormed(SyncDirectories(t, src, dirs, ignored).value, src, files, allowed);
  }
}
