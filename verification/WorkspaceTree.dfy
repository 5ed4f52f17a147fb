/**
  The workspace sync on values: a file tree is a finite map from paths to entries.  Pruning and
  the two copy loops of `sync_workspace` are described step by step, and the resulting tree is
  characterised path by path.
*/
module WorkspaceTree {
  import opened Common

  type Path = seq<string>

  /**
    What a symbolic link leads to: nothing, the very file of the source that is to be copied onto
    the link, or some other file or directory outside both trees.
  */
  datatype Target = Dangling | ToSource | ToFile(content: seq<int>) | ToDirectory

  datatype Entry = File(content: seq<int>) | Directory | Symlink(target: Target)

  type Tree = map<Path, Entry>

  function Look(t: Tree, p: Path): Option<Entry> { if p in t then Some(t[p]) else None }

  function Parent(p: Path): Path
    requires p != []
  {
    p[..|p| - 1]
  }

  /** A root directory, and every other entry lies in a real directory. */
  ghost predicate WellFormed(t: Tree) {
    Look(t, []) == Some(Directory) && forall p :: p in t && p != [] ==> Look(t, Parent(p)) == Some(Directory)
  }

  /** No path of the set is at or below another one. */
  ghost predicate PrefixFree(allowed: set<Path>) {
    && (forall a :: a in allowed ==> a != [])
    && (forall a, b :: a in allowed && b in allowed && a <= b ==> a == b)
  }

  /** The directories on the way to an allowed path, without the root. */
  function Ancestors(allowed: set<Path>): set<Path> { set a, k | a in allowed && 0 < k < |a| :: a[..k] }

  function Removed(t: Tree, path: Path): Tree { map p | p in t && !(path <= p) :: t[p] }

  // ---------- Pruning ----------

  ghost predicate Under(allowed: set<Path>, p: Path) { exists a :: a in allowed && a <= p }

  /** Allowed, below an allowed entry, or a real directory on the way to one. */
  ghost predicate Keeps(t: Tree, allowed: set<Path>, p: Path) {
    p == [] || Under(allowed, p) || (p in Ancestors(allowed) && Look(t, p) == Some(Directory))
  }

  /** The tree with everything strictly below `prefix` pruned. */
  ghost function Pruned(t: Tree, allowed: set<Path>, prefix: Path): Tree {
    map p | p in t && (!(prefix < p) || Keeps(t, allowed, p)) :: t[p]
  }

  lemma {:induction false} PrefixesAreDirectories(t: Tree, p: Path, q: Path)
    requires WellFormed(t) && p in t && q < p
    ensures Look(t, q) == Some(Directory)
    decreases |p|
  {
    if q != Parent(p) {
      assert q <= Parent(p);
      PrefixesAreDirectories(t, Parent(p), q);
    }
  }

  lemma AncestorsClosed(allowed: set<Path>, p: Path, q: Path)
    requires q <= p && q != []
    ensures p in Ancestors(allowed) ==> q in Ancestors(allowed)
    ensures p in allowed && q != p ==> q in Ancestors(allowed)
  {
    if p in Ancestors(allowed) {
      var a, k :| a in allowed && 0 < k < |a| && p == a[..k];
      assert q == a[..|q|];
    }
    if p in allowed && q != p {
      assert q == p[..|q|];
    }
  }

  lemma UnderOrAbove(allowed: set<Path>, rel: Path, p: Path)
    requires rel != [] && rel <= p && Under(allowed, p)
    ensures Under(allowed, rel) || rel in Ancestors(allowed)
  {
    var a :| a in allowed && a <= p;
    if |a| <= |rel| {
      assert a == rel[..|a|];
    } else {
      assert rel == a[..|rel|];
    }
  }

  /** An entry that is neither allowed nor a real directory on the way takes nothing worth keeping with it. */
  lemma NothingKeptBelow(t: Tree, allowed: set<Path>, rel: Path, p: Path)
    requires WellFormed(t) && rel != [] && !Under(allowed, rel)
    requires !(rel in Ancestors(allowed) && Look(t, rel) == Some(Directory))
    requires p in t && rel <= p
    ensures !Keeps(t, allowed, p)
  {
    if rel < p {
      PrefixesAreDirectories(t, p, rel);
      AncestorsClosed(allowed, p, rel);
      if Under(allowed, p) {
        UnderOrAbove(allowed, rel, p);
      }
    } else {
      assert rel == p;
    }
  }

  /** Pruning leaves exactly the entries to keep, as they were, and a well-formed tree. */
  lemma PruningIsExact(t: Tree, allowed: set<Path>)
    requires WellFormed(t)
    ensures var t' := Pruned(t, allowed, []);
            && WellFormed(t')
            && (forall p :: Look(t', p) == if p in t && Keeps(t, allowed, p) then Look(t, p) else None)
  {
    var t' := Pruned(t, allowed, []);
    forall p | p in t' && p != []
      ensures Look(t', Parent(p)) == Some(Directory)
    {
      var q := Parent(p);
      if q != [] {
        AncestorsClosed(allowed, p, q);
        if Under(allowed, p) {
          var a :| a in allowed && a <= p;
          if a <= q {
            assert Under(allowed, q);
          } else {
            assert a == p;
          }
        }
        assert Keeps(t, allowed, q);
      }
    }
  }

  // ---------- One directory, one file ----------

  type Ignore = string -> bool

  /** No component of `p` from position `from` on has an ignored name. */
  predicate NotIgnored(p: Path, from: nat, ignored: Ignore) {
    forall i :: from <= i < |p| ==> !ignored(p[i])
  }

  /** `copytree` with an ignore filter: the entries below `rel` that no ignored name cuts off. */
  function Subtree(src: Tree, rel: Path, ignored: Ignore): Tree {
    map p | p in src && rel <= p && NotIgnored(p, |rel|, ignored) :: src[p]
  }

  /** `mkdir(parents=True, exist_ok=True)` for everything above `p`. */
  function MakeParents(t: Tree, p: Path): Tree {
    t + (map k | 0 <= k < |p| && p[..k] !in t :: p[..k] := Directory)
  }

  /** The source has something to put at the allowed path. */
  predicate SuppliesDirectory(src: Tree, rel: Path) { Look(src, rel) == Some(Directory) }

  predicate SuppliesFile(src: Tree, rel: Path) { rel in src && src[rel].File? }

  predicate IsDangling(t: Tree, p: Path) { Look(t, p) == Some(Symlink(Dangling)) }

  /** One round of the first loop; `None` is the error `copytree` raises when the target still exists. */
  ghost function SyncDirectory(t: Tree, src: Tree, rel: Path, ignored: Ignore): Option<Tree> {
    var t1 := if rel in t && !IsDangling(t, rel) then Removed(t, rel) else t;
    if !SuppliesDirectory(src, rel) then Some(t1)
    else if rel in t1 then None
    else Some(MakeParents(t1, rel) + Subtree(src, rel, ignored))
  }

  /** Writing a file through whatever is at `p`; `None` when that is a directory or the file to be copied itself. */
  function WriteFile(t: Tree, p: Path, content: seq<int>): Option<Tree> {
    match Look(t, p)
    case None => Some(t[p := File(content)])
    case Some(File(_)) => Some(t[p := File(content)])
    case Some(Directory) => None
    case Some(Symlink(ToFile(_))) => Some(t[p := Symlink(ToFile(content))])
    case Some(Symlink(Dangling)) => Some(t[p := Symlink(ToFile(content))])
    case Some(Symlink(ToDirectory)) => None
    case Some(Symlink(ToSource)) => None
  }

  /** `copy2`: a target that is a directory receives the file inside it. */
  function Copy2(t: Tree, p: Path, content: seq<int>): Option<Tree>
    requires p != []
  {
    match Look(t, p)
    case Some(Directory) => WriteFile(t, p + [p[|p| - 1]], content)
    case Some(Symlink(ToDirectory)) => Some(t)
    case _ => WriteFile(t, p, content)
  }

  /** One round of the second loop. */
  ghost function SyncFile(t: Tree, src: Tree, rel: Path): Option<Tree>
    requires rel != []
  {
    if SuppliesFile(src, rel) then Copy2(MakeParents(t, rel), rel, src[rel].content) else Some(t)
  }

  /** Paths strictly above `rel` hold real directories or nothing. */
  ghost predicate ClearAbove(t: Tree, rel: Path) {
    forall p :: p in t && p < rel ==> t[p] == Directory
  }

  lemma MakeParentsLook(t: Tree, rel: Path, p: Path)
    requires ClearAbove(t, rel)
    ensures Look(MakeParents(t, rel), p) == if p < rel then Some(Directory) else Look(t, p)
  {
    if p < rel {
      assert p == rel[..|p|];
    }
  }

  /** Nothing lies below a path that is not there. */
  ghost predicate ClearBelow(t: Tree, rel: Path) {
    rel !in t ==> forall p :: p in t ==> !(rel <= p)
  }

  /** What one round of the first loop does to every path. */
  lemma SyncDirectoryLook(t: Tree, src: Tree, rel: Path, ignored: Ignore, p: Path)
    requires ClearAbove(t, rel) && ClearBelow(t, rel) && !IsDangling(t, rel)
    ensures SyncDirectory(t, src, rel, ignored).Some?
    ensures Look(SyncDirectory(t, src, rel, ignored).value, p) ==
            if rel <= p then
              if SuppliesDirectory(src, rel) && NotIgnored(p, |rel|, ignored) then Look(src, p) else None
            else if p < rel && SuppliesDirectory(src, rel) then Some(Directory)
            else Look(t, p)
  {
    hide NotIgnored;
    var t1 := if rel in t then Removed(t, rel) else t;
    assert rel !in t1;
    assert Look(t1, p) == if rel <= p then None else Look(t, p);
    MakeParentsLook(t1, rel, p);
  }

  /** What one round of the second loop does to every path, where the target is a plain file or absent. */
  lemma SyncFileLook(t: Tree, src: Tree, rel: Path, p: Path)
    requires rel != [] && ClearAbove(t, rel) && (SuppliesFile(src, rel) && rel in t ==> t[rel].File?)
    ensures SyncFile(t, src, rel).Some?
    ensures Look(SyncFile(t, src, rel).value, p) ==
            if SuppliesFile(src, rel) && p == rel then Look(src, p)
            else if SuppliesFile(src, rel) && p < rel then Some(Directory)
            else Look(t, p)
  {
    MakeParentsLook(t, rel, p);
    MakeParentsLook(t, rel, rel);
  }

  // ---------- When a round does what it should ----------

  /** The first loop meets its promise for an allowed directory exactly when no dangling link sits there. */
  lemma DirectorySyncedIffNotDangling(t: Tree, src: Tree, rel: Path, ignored: Ignore)
    requires ClearAbove(t, rel) && ClearBelow(t, rel)
    ensures (SyncDirectory(t, src, rel, ignored).Some? &&
             forall p :: rel <= p ==>
               Look(SyncDirectory(t, src, rel, ignored).value, p) ==
               if SuppliesDirectory(src, rel) && NotIgnored(p, |rel|, ignored) then Look(src, p) else None)
            <==> !IsDangling(t, rel)
  {
    if !IsDangling(t, rel) {
      forall p | rel <= p
        ensures Look(SyncDirectory(t, src, rel, ignored).value, p) ==
                if SuppliesDirectory(src, rel) && NotIgnored(p, |rel|, ignored) then Look(src, p) else None
      {
        SyncDirectoryLook(t, src, rel, ignored, p);
      }
      SyncDirectoryLook(t, src, rel, ignored, rel);
    } else {
      assert rel <= rel;
    }
  }

  /** What reading the file at a path gives, through a link if there is one. */
  function Contents(t: Tree, src: Tree, p: Path): Option<seq<int>> {
    match Look(t, p)
    case Some(File(content)) => Some(content)
    case Some(Symlink(ToFile(content))) => Some(content)
    case Some(Symlink(ToSource)) => if SuppliesFile(src, p) then Some(src[p].content) else None
    case _ => None
  }

  /** `os.path.isdir`: a directory, or a link to one. */
  predicate DirectoryAt(t: Tree, p: Path) {
    Look(t, p) == Some(Directory) || Look(t, p) == Some(Symlink(ToDirectory))
  }

  /** What keeps `copy2` from doing its job: a directory, or a link back to the file it is to copy. */
  predicate InTheWay(t: Tree, p: Path) { DirectoryAt(t, p) || Look(t, p) == Some(Symlink(ToSource)) }

  lemma FileRoundAt(t: Tree, rel: Path)
    requires rel != []
    ensures Look(MakeParents(t, rel), rel) == Look(t, rel)
    ensures rel + [rel[|rel| - 1]] != rel
  {
    assert forall k :: 0 <= k < |rel| ==> rel[..k] != rel;
  }

  /** Reading an allowed file's path gives the source's content afterwards exactly when nothing is in the way. */
  lemma FileReadIffNothingInTheWay(t: Tree, src: Tree, rel: Path)
    requires rel != [] && SuppliesFile(src, rel)
    ensures (SyncFile(t, src, rel).Some? && Contents(SyncFile(t, src, rel).value, src, rel) == Some(src[rel].content))
            <==> !InTheWay(t, rel)
    ensures !InTheWay(t, rel) ==> SyncFile(t, src, rel).Some?
    ensures DirectoryAt(t, rel) && SyncFile(t, src, rel).Some? ==> DirectoryAt(SyncFile(t, src, rel).value, rel)
    ensures InTheWay(t, rel) && !DirectoryAt(t, rel) ==> SyncFile(t, src, rel) == None
  {
    hide MakeParents;
    FileRoundAt(t, rel);
  }

  /** The second loop puts a plain copy into place exactly when a plain file or nothing is there. */
  lemma FileSyncedIffPlain(t: Tree, src: Tree, rel: Path)
    requires rel != [] && ClearAbove(t, rel) && SuppliesFile(src, rel)
    ensures (SyncFile(t, src, rel).Some? && Look(SyncFile(t, src, rel).value, rel) == Look(src, rel))
            <==> (rel in t ==> t[rel].File?)
  {
    MakeParentsLook(t, rel, rel);
    if rel in t ==> t[rel].File? {
      SyncFileLook(t, src, rel, rel);
    } else {
      assert rel + [rel[|rel| - 1]] != rel;
    }
  }
}
